/** The priority queue (pqueue.c): a binary heap in a growing array, ordered by a caller's comparison. */
module Pqueue {
  import opened Basics

  /** A comparison a caller may pass: its signs are consistent, and it is transitive. */
  ghost predicate TotalPreorder<T(!new)>(cmp: (T, T) -> int) {
    && (forall a, b :: cmp(a, b) > 0 <==> cmp(b, a) < 0)
    && (forall a, b, c :: cmp(a, b) >= 0 && cmp(b, c) >= 0 ==> cmp(a, c) >= 0)
  }

  function Parent(x: nat): (p: int)
    ensures x > 0 ==> 0 <= p < x
  {
    (1 + x) / 2 - 1
  }

  function Left(x: nat): nat { (1 + x) * 2 - 1 }

  function Right(x: nat): nat { (1 + x) * 2 }

  lemma Family(x: nat)
    ensures x > 0 ==> 0 <= Parent(x) < x && (x == Left(Parent(x)) || x == Right(Parent(x)))
    ensures Parent(Left(x)) == x == Parent(Right(x)) && x < Left(x) < Right(x)
  {
  }

  ghost predicate InOrder<T>(s: seq<T>, cmp: (T, T) -> int, k: nat)
    requires 0 < k < |s|
  {
    cmp(s[Parent(k)], s[k]) >= 0
  }

  /** No element is above its parent. */
  ghost predicate IsHeap<T>(s: seq<T>, cmp: (T, T) -> int) {
    forall k :: 0 < k < |s| ==> InOrder(s, cmp, k)
  }

  ghost predicate BelowGrandparent<T>(s: seq<T>, cmp: (T, T) -> int, i: nat, k: nat)
    requires 0 < i < |s| && k < |s|
  {
    cmp(s[Parent(i)], s[k]) >= 0
  }

  /** A heap but for the element at i, which may be below its children; they are in order with its parent. */
  ghost predicate HeapAbove<T>(s: seq<T>, cmp: (T, T) -> int, i: nat) {
    && (forall k :: 0 < k < |s| && Parent(k) != i ==> InOrder(s, cmp, k))
    && (forall k :: 0 < k < |s| && Parent(k) == i && 0 < i < |s| ==> BelowGrandparent(s, cmp, i, k))
  }

  /** A heap but for the element at i, which may be above its parent; its children are in order with both. */
  ghost predicate HeapBelow<T>(s: seq<T>, cmp: (T, T) -> int, i: nat) {
    && (forall k :: 0 < k < |s| && k != i ==> InOrder(s, cmp, k))
    && (forall k :: 0 < k < |s| && Parent(k) == i && 0 < i < |s| ==> BelowGrandparent(s, cmp, i, k))
  }

  function Swapped<T>(s: seq<T>, i: nat, j: nat): (r: seq<T>)
    requires i < |s| && j < |s|
    ensures |r| == |s| && r[i] == s[j] && r[j] == s[i]
    ensures forall k :: 0 <= k < |s| && k != i && k != j ==> r[k] == s[k]
  {
    s[i := s[j]][j := s[i]]
  }

  lemma SwapKeeps<T>(s: seq<T>, i: nat, j: nat)
    requires i < |s| && j < |s|
    ensures multiset(Swapped(s, i, j)) == multiset(s)
  {
  }

  /** The root of a heap is above everything. */
  lemma {:induction false} RootIsGreatest<T(!new)>(s: seq<T>, cmp: (T, T) -> int, k: nat)
    requires TotalPreorder(cmp) && IsHeap(s, cmp) && k < |s|
    ensures cmp(s[0], s[k]) >= 0
  {
    if k == 0 {
      assert !(cmp(s[0], s[0]) < 0);
    } else {
      Family(k);
      RootIsGreatest(s, cmp, Parent(k));
      assert InOrder(s, cmp, k);
    }
  }

  /** Swapping with the greatest child moves the disorder down to that child's place. */
  lemma SwapDown<T(!new)>(s: seq<T>, cmp: (T, T) -> int, i: nat, c: nat)
    requires TotalPreorder(cmp) && HeapAbove(s, cmp, i) && i < |s| && 0 < c < |s| && Parent(c) == i
    requires cmp(s[c], s[i]) > 0
    requires forall k :: 0 < k < |s| && Parent(k) == i ==> cmp(s[c], s[k]) >= 0
    ensures HeapAbove(Swapped(s, i, c), cmp, c)
  {
  }

  lemma OrderRestored<T(!new)>(s: seq<T>, cmp: (T, T) -> int, i: nat)
    requires TotalPreorder(cmp) && HeapAbove(s, cmp, i) && i < |s|
    requires forall k :: 0 < k < |s| && Parent(k) == i ==> cmp(s[i], s[k]) >= 0
    ensures IsHeap(s, cmp)
  {
  }

  /** Moving the parent down and the new element up in its place moves the disorder up. */
  lemma SwapUp<T(!new)>(s: seq<T>, cmp: (T, T) -> int, i: nat)
    requires TotalPreorder(cmp) && HeapBelow(s, cmp, i) && 0 < i < |s|
    requires cmp(s[Parent(i)], s[i]) < 0
    ensures HeapBelow(Swapped(s, i, Parent(i)), cmp, Parent(i))
  {
    hide Parent, Swapped, TotalPreorder;
    var p := Parent(i);
    var t := Swapped(s, i, p);
    forall k | 0 < k < |t| && k != p
      ensures InOrder(t, cmp, k)
    {
      SwapUpAt(s, cmp, i, k);
    }
    forall k | 0 < k < |t| && Parent(k) == p && 0 < p
      ensures BelowGrandparent(t, cmp, p, k)
    {
      assert InOrder(s, cmp, p);
      if k != i {
        assert InOrder(s, cmp, k);
        Transitive(cmp, s[Parent(p)], s[p], s[k]);
      }
    }
  }

  lemma Transitive<T(!new)>(cmp: (T, T) -> int, a: T, b: T, c: T)
    requires TotalPreorder(cmp) && cmp(a, b) >= 0 && cmp(b, c) >= 0
    ensures cmp(a, c) >= 0
  {
  }

  lemma SwapUpAt<T(!new)>(s: seq<T>, cmp: (T, T) -> int, i: nat, k: nat)
    requires TotalPreorder(cmp) && HeapBelow(s, cmp, i) && 0 < i < |s|
    requires cmp(s[Parent(i)], s[i]) < 0
    requires 0 < k < |s| && k != Parent(i)
    ensures InOrder(Swapped(s, i, Parent(i)), cmp, k)
  {
    hide Parent, Swapped, TotalPreorder;
    var p := Parent(i);
    if k == i {
      Flipped(cmp, s[p], s[i]);
    } else if Parent(k) == i {
      assert BelowGrandparent(s, cmp, i, k);
    } else {
      assert InOrder(s, cmp, k);
      if Parent(k) == p {
        Flipped(cmp, s[p], s[i]);
        Transitive(cmp, s[i], s[p], s[k]);
      }
    }
  }

  lemma Flipped<T(!new)>(cmp: (T, T) -> int, a: T, b: T)
    requires TotalPreorder(cmp) && cmp(a, b) < 0
    ensures cmp(b, a) > 0
  {
  }

  class Pqueue<T(0, ==, !new)> {
    var len: nat
    var data: array<T>
    const cmp: (T, T) -> int

    ghost predicate Valid()
      reads this, data
    {
      0 < data.Length && len <= data.Length && TotalPreorder(cmp) && IsHeap(data[..len], cmp)
    }

    /** The elements in the queue, each as often as it was put in. */
    ghost function Elements(): multiset<T>
      requires len <= data.Length
      reads this, data
    {
      multiset(data[..len])
    }

    constructor (maxLength: nat, compare: (T, T) -> int)
      requires maxLength >= 1 && TotalPreorder(compare)
      ensures Valid() && Elements() == multiset{} && data.Length == maxLength && cmp == compare && fresh(data)
    {
      len := 0;
      cmp := compare;
      data := new T[maxLength];
    }

    method SwapPlaces(i: nat, j: nat)
      requires i < len <= data.Length && j < len
      modifies data
      ensures data[..len] == Swapped(old(data[..len]), i, j)
    {
      data[i], data[j] := data[j], data[i];
    }

    method Heapify(index: nat)
      requires len <= data.Length && TotalPreorder(cmp)
      requires HeapAbove(data[..len], cmp, index) && (index < len || len == 0)
      modifies data
      ensures IsHeap(data[..len], cmp) && Elements() == old(Elements())
      decreases len - index
    {
      var iMax := index;
      var left, right := Left(index), Right(index);
      Family(index);
      if left < len && cmp(data[left], data[iMax]) > 0 {
        iMax := left;
      }
      if right < len && cmp(data[right], data[iMax]) > 0 {
        iMax := right;
      }
      hide HeapAbove, IsHeap, TotalPreorder, Swapped, Left, Right;
      GreatestChild(data[..len], cmp, index, iMax);
      if iMax != index {
        SwapKeeps(data[..len], index, iMax);
        SwapPlaces(index, iMax);
        Heapify(iMax);
      }
    }

    /** Takes out an element that none other is above; an empty queue has none. */
    method Extract() returns (r: Option<T>)
      requires Valid()
      modifies this`len, data
      ensures Valid()
      ensures r.None? <==> old(Elements()) == multiset{}
      ensures r.None? ==> Elements() == old(Elements())
      ensures r.Some? ==> && r.value in old(Elements()) && Elements() == old(Elements()) - multiset{r.value}
                          && forall x :: x in old(Elements()) ==> cmp(r.value, x) >= 0
    {
      hide HeapAbove, IsHeap, TotalPreorder;
      if len == 0 {
        return None;
      }
      ghost var s := data[..len];
      GreatestIn(s, cmp);
      LastFirst(s, cmp);
      r := Some(data[0]);
      FirstIn(s);
      LastToFirst();
      Heapify(0);
    }

    method LastToFirst()
      requires 0 < len <= data.Length
      modifies this`len, data
      ensures len == old(len) - 1
      ensures data[..len] == old(data[..len])[0 := old(data[len - 1])][..len]
    {
      data[0] := data[len - 1];
      len := len - 1;
    }

    /** Puts an element in, growing the array if it is full; without memory for that, nothing changes. */
    method Insert(d: T, memory: bool) returns (ok: bool)
      requires Valid()
      modifies this, data
      ensures Valid() && ok == (old(len) < old(data.Length) || memory)
      ensures ok ==> Elements() == old(Elements()) + multiset{d}
      ensures !ok ==> data == old(data) && len == old(len) && data[..] == old(data[..])
      ensures data == old(data) || fresh(data)
      ensures data.Length == if ok && old(len) == old(data.Length) then 2 * old(data.Length) else old(data.Length)
    {
      ghost var s := data[..len];
      if len >= data.Length {
        if !memory {
          return false;
        }
        var buf := new T[2 * data.Length];
        forall i | 0 <= i < len {
          buf[i] := data[i];
        }
        data := buf;
      }
      assert data[..len] == s;
      Appended(s, cmp, d);
      len := len + 1;
      SiftUp(s, d);
      return true;
    }

    /** Moves elements below d down, from the free place at the end on, and puts d into the place left free. */
    method SiftUp(ghost s: seq<T>, d: T)
      requires 0 < len <= data.Length && TotalPreorder(cmp)
      requires data[..len - 1] == s && HeapBelow(s + [d], cmp, |s|)
      modifies data
      ensures IsHeap(data[..len], cmp) && multiset(data[..len]) == multiset(s) + multiset{d}
    {
      hide HeapBelow, IsHeap, TotalPreorder, Parent, Swapped;
      var index: nat := len - 1;
      ghost var t := s + [d];
      while index > 0 && cmp(data[Parent(index)], d) < 0
        invariant index < len == |t|
        invariant t[index] == d && forall k :: 0 <= k < len && k != index ==> data[k] == t[k]
        invariant HeapBelow(t, cmp, index) && multiset(t) == multiset(s + [d])
      {
        SwapUp(t, cmp, index);
        SwapKeeps(t, index, Parent(index));
        t := Swapped(t, index, Parent(index));
        data[index] := data[Parent(index)];
        index := Parent(index);
      }
      data[index] := d;
      assert data[..len] == t;
      InPlace(t, cmp, index);
    }
  }

  lemma FirstIn<T>(s: seq<T>)
    requires s != []
    ensures s[0] in multiset(s)
  {
  }

  lemma GreatestChild<T(!new)>(s: seq<T>, cmp: (T, T) -> int, i: nat, m: nat)
    requires TotalPreorder(cmp) && HeapAbove(s, cmp, i) && (i < |s| || s == [])
    requires var l := if Left(i) < |s| && cmp(s[Left(i)], s[i]) > 0 then Left(i) else i;
             m == if Right(i) < |s| && cmp(s[Right(i)], s[l]) > 0 then Right(i) else l
    ensures m == i ==> IsHeap(s, cmp)
    ensures m != i ==> i < m < |s| && HeapAbove(Swapped(s, i, m), cmp, m)
  {
    if s != [] {
      Family(i);
      assert cmp(s[m], s[m]) >= 0;
      forall k | 0 < k < |s| && Parent(k) == i
        ensures cmp(s[m], s[k]) >= 0
      {
        Family(k);
      }
      if m == i {
        OrderRestored(s, cmp, i);
      } else {
        SwapDown(s, cmp, i, m);
      }
    }
  }

  lemma GreatestIn<T(!new)>(s: seq<T>, cmp: (T, T) -> int)
    requires TotalPreorder(cmp) && IsHeap(s, cmp) && s != []
    ensures forall x :: x in multiset(s) ==> cmp(s[0], x) >= 0
  {
    forall x | x in multiset(s)
      ensures cmp(s[0], x) >= 0
    {
      assert x in s;
      var k :| 0 <= k < |s| && s[k] == x;
      RootIsGreatest(s, cmp, k);
    }
  }

  /** With the last element in the place of the first, only the root is in disorder. */
  lemma LastFirst<T(!new)>(s: seq<T>, cmp: (T, T) -> int)
    requires TotalPreorder(cmp) && IsHeap(s, cmp) && s != []
    ensures var t := s[0 := s[|s| - 1]][..|s| - 1];
            HeapAbove(t, cmp, 0) && multiset(t) == multiset(s) - multiset{s[0]}
  {
    var t := s[0 := s[|s| - 1]][..|s| - 1];
    forall k | 0 < k < |t| && Parent(k) != 0
      ensures InOrder(t, cmp, k)
    {
      Family(k);
      assert InOrder(s, cmp, k);
    }
    assert s == s[..|s| - 1] + [s[|s| - 1]];
    if |s| > 1 {
      var mid := s[1..|s| - 1];
      assert s == [s[0]] + mid + [s[|s| - 1]];
      assert t == [s[|s| - 1]] + mid;
    }
  }

  lemma Appended<T(!new)>(s: seq<T>, cmp: (T, T) -> int, d: T)
    requires TotalPreorder(cmp) && IsHeap(s, cmp)
    ensures HeapBelow(s + [d], cmp, |s|)
  {
    forall k | 0 < k < |s|
      ensures InOrder(s + [d], cmp, k)
    {
      Family(k);
      assert InOrder(s, cmp, k);
    }
    forall k | 0 < k < |s + [d]|
      ensures Parent(k) != |s|
    {
      Family(k);
    }
  }

  lemma InPlace<T(!new)>(s: seq<T>, cmp: (T, T) -> int, i: nat)
    requires TotalPreorder(cmp) && HeapBelow(s, cmp, i) && i < |s|
    requires i > 0 ==> cmp(s[Parent(i)], s[i]) >= 0
    ensures IsHeap(s, cmp)
  {
  }
}
