/** The moving median filter (mmedian.c): a ring of samples and their indices sorted by value. */
module Mmedian {
  import opened Basics
  import opened Tmv

  // ----- the median of a window, by sorting it

  function Insert(v: int, s: seq<int>): seq<int> {
    if s == [] || v <= s[0] then [v] + s else [s[0]] + Insert(v, s[1..])
  }

  function Sort(vs: seq<int>): (s: seq<int>)
    ensures |s| == |vs|
  {
    if vs == [] then [] else
      InsertedElements(vs[0], Sort(vs[1..]));
      Insert(vs[0], Sort(vs[1..]))
  }

  lemma {:induction false} InsertedElements(v: int, s: seq<int>)
    ensures |Insert(v, s)| == |s| + 1 && multiset(Insert(v, s)) == multiset(s) + multiset{v}
  {
    if s == [] || v <= s[0] {
    } else {
      InsertedElements(v, s[1..]);
      assert s == [s[0]] + s[1..];
    }
  }

  lemma {:induction false} SortedInsert(v: int, s: seq<int>)
    requires IsSorted(s)
    ensures IsSorted(Insert(v, s))
  {
    if s == [] || v <= s[0] {
    } else {
      SortedInsert(v, s[1..]);
      InsertedElements(v, s[1..]);
      var r := Insert(v, s[1..]);
      forall k | 0 <= k < |r|
        ensures s[0] <= r[k]
      {
        assert r[k] in multiset(r);
        assert r[k] == v || r[k] in s[1..];
      }
    }
  }

  ghost predicate IsSorted(s: seq<int>) {
    forall j, k :: 0 <= j < k < |s| ==> s[j] <= s[k]
  }

  lemma {:induction false} SortSorts(vs: seq<int>)
    ensures IsSorted(Sort(vs)) && multiset(Sort(vs)) == multiset(vs)
  {
    if vs != [] {
      SortSorts(vs[1..]);
      SortedInsert(vs[0], Sort(vs[1..]));
      InsertedElements(vs[0], Sort(vs[1..]));
      assert vs == [vs[0]] + vs[1..];
    }
  }

  /** There is only one way to sort. */
  lemma {:induction false} SortedUnique(s: seq<int>, t: seq<int>)
    requires IsSorted(s) && IsSorted(t) && multiset(s) == multiset(t)
    ensures s == t
    decreases |s|
  {
    assert |s| == |multiset(s)| == |multiset(t)| == |t|;
    if s != [] {
      SameFirst(s, t);
      assert s == [s[0]] + s[1..] && t == [t[0]] + t[1..];
      SortedUnique(s[1..], t[1..]);
    }
  }

  lemma SameFirst(s: seq<int>, t: seq<int>)
    requires IsSorted(s) && IsSorted(t) && multiset(s) == multiset(t) && |s| == |t| > 0
    ensures s[0] == t[0] && multiset(s[1..]) == multiset(t[1..])
  {
    SmallestFirst(s, t);
    SmallestFirst(t, s);
    TailMultiset(s);
    TailMultiset(t);
  }

  lemma SmallestFirst(s: seq<int>, t: seq<int>)
    requires IsSorted(s) && multiset(s) == multiset(t) && |s| == |t| > 0
    ensures s[0] <= t[0]
  {
    assert t[0] in multiset(t);
    assert t[0] in s;
  }

  lemma TailMultiset(s: seq<int>)
    requires s != []
    ensures multiset(s[1..]) == multiset(s) - multiset{s[0]}
  {
    assert s == [s[0]] + s[1..];
  }

  /** The value in the middle, or half the (wrapping) sum of the two in the middle. */
  function MedianOf(vs: seq<int>): int
    requires vs != []
  {
    var s, n := Sort(vs), |vs|;
    if n % 2 == 1 then s[n / 2] else TruncDiv(Add(s[n / 2 - 1], s[n / 2]), 2)
  }

  /** An even window yields a value between the two in the middle exactly if their sum fits into 64 bits. */
  lemma EvenMedian(a: int, b: int)
    requires IsI64(a) && IsI64(b) && a <= b
    ensures a <= TruncDiv(Add(a, b), 2) <= b <==> IsI64(a + b)
  {
    if a + b >= TWO_63 {
      assert Add(a, b) == a + b - TWO_64;
    } else if a + b < -TWO_63 {
      assert Add(a, b) == a + b + TWO_64;
    }
  }

  /** Twice the largest time has a negative median. */
  lemma MedianOverflows()
    ensures MedianOf([TWO_63 - 1, TWO_63 - 1]) == -1
  {
    var vs := [TWO_63 - 1, TWO_63 - 1];
    assert vs[1..] == [TWO_63 - 1] && vs[1..][1..] == [];
    assert Sort([TWO_63 - 1]) == [TWO_63 - 1];
    assert Sort(vs) == vs;
  }

  /** The newest samples that the filter still holds. */
  function Window(history: seq<int>, len: nat): seq<int> {
    history[|history| - Min(|history|, len)..]
  }

  // ----- the sorted index

  /** o lists all of 0 to n - 1, but for the index left out, without repetition, by ascending value. */
  ghost predicate Ordered(o: seq<int>, s: seq<int>, n: nat, out: int) {
    && n <= |s|
    && (forall k :: 0 <= k < |o| ==> 0 <= o[k] < n && o[k] != out)
    && (forall j, k :: 0 <= j < k < |o| ==> o[j] != o[k])
    && (forall j, k :: 0 <= j < k < |o| ==> s[o[j]] <= s[o[k]])
    && (forall i :: 0 <= i < n && i != out ==> i in o)
  }

  /** Once its index is off the list, a sample can be overwritten. */
  lemma RemovedIndex(o: seq<int>, s: seq<int>, n: nat, p: nat, v: int)
    requires Ordered(o, s, n, -1) && p < |o|
    ensures Ordered(Without(o, p), s[o[p] := v], n, o[p])
  {
    hide Without;
    forall i | 0 <= i < n && i != o[p]
      ensures i in Without(o, p)
    {
      WithoutKeeps(o, p, i);
    }
  }

  lemma InsertedIndex(o: seq<int>, s: seq<int>, n: nat, p: nat, x: nat)
    requires Ordered(o, s, n, x) && p <= |o| && x < n
    requires p > 0 ==> s[o[p - 1]] <= s[x]
    requires p < |o| ==> s[x] <= s[o[p]]
    ensures Ordered(With(o, p, x as int), s, n, -1)
  {
    hide With;
    var r := With(o, p, x as int);
    forall i | 0 <= i < n
      ensures i in r
    {
      if i != x {
        WithKeeps(o, p, x as int, i);
      }
    }
    assert forall k :: 0 <= k < p ==> s[o[k]] <= s[x];
    assert forall k :: p <= k < |o| ==> s[x] <= s[o[k]];
    forall j, k | 0 <= j < k < |r|
      ensures r[j] != r[k] && s[r[j]] <= s[r[k]]
    {
      assert j != p ==> r[j] == o[if j < p then j else j - 1];
      assert k != p ==> r[k] == o[if k < p then k else k - 1];
    }
  }

  lemma ListedInRange(o: seq<int>, s: seq<int>, n: nat, out: int)
    requires Ordered(o, s, n, out)
    ensures n <= |s| && forall k :: 0 <= k < |o| ==> 0 <= o[k] < n
  {
  }

  function Values(o: seq<int>, s: seq<int>): (v: seq<int>)
    requires forall k :: 0 <= k < |o| ==> 0 <= o[k] < |s|
    ensures |v| == |o| && forall k :: 0 <= k < |o| ==> v[k] == s[o[k]]
  {
    seq(|o|, k requires 0 <= k < |o| => s[o[k]])
  }

  /** The values an index lists are those of the samples it ranges over. */
  lemma {:induction false} OrderedValues(o: seq<int>, s: seq<int>, n: nat)
    requires n <= |s|
    requires forall k :: 0 <= k < |o| ==> 0 <= o[k] < n
    requires forall j, k :: 0 <= j < k < |o| ==> o[j] != o[k]
    requires forall i :: 0 <= i < n ==> i in o
    ensures |o| == n && multiset(Values(o, s)) == multiset(s[..n])
    decreases n
  {
    hide Values, Without;
    if n == 0 {
      assert |o| == 0;
      assert Values(o, s) == s[..n];
    } else {
      assert n - 1 in o;
      var p :| 0 <= p < |o| && o[p] == n - 1;
      forall i | 0 <= i < n - 1
        ensures i in Without(o, p)
      {
        WithoutKeeps(o, p, i);
      }
      OrderedValues(Without(o, p), s, n - 1);
      WithoutValues(o, s, p);
      assert s[..n] == s[..n - 1] + [s[n - 1]];
    }
  }

  lemma WithoutValues(o: seq<int>, s: seq<int>, p: nat)
    requires p < |o| && forall k :: 0 <= k < |o| ==> 0 <= o[k] < |s|
    ensures multiset(Values(o, s)) == multiset(Values(Without(o, p), s)) + multiset{s[o[p]]}
  {
    var v := Values(o, s);
    assert v == v[..p] + [s[o[p]]] + v[p + 1..];
    assert Values(Without(o, p), s) == v[..p] + v[p + 1..];
  }

  // ----- the ring

  /** Slot i holds the sample that was written there last. */
  ghost predicate Ring(s: seq<int>, cnt: nat, index: nat, history: seq<int>) {
    && index < |s| && cnt == Min(|history|, |s|) && (cnt < |s| ==> index == cnt)
    && forall i :: 0 <= i < cnt ==>
         0 <= Written(|history|, index, i, |s|) < |history| && s[i] == history[Written(|history|, index, i, |s|)]
  }

  /** Which of n samples slot i holds, when the next one goes to index. */
  function Written(n: nat, index: nat, i: nat, len: nat): int {
    n - index + i - if i >= index then len else 0
  }

  lemma RingWindow(s: seq<int>, cnt: nat, index: nat, history: seq<int>)
    requires Ring(s, cnt, index, history)
    ensures multiset(s[..cnt]) == multiset(Window(history, |s|))
  {
    var w := Window(history, |s|);
    if cnt < |s| {
      assert s[..cnt] == w;
    } else {
      assert s[..cnt] == s[..index] + s[index..];
      assert w == s[index..] + s[..index];
    }
  }

  lemma RingStep(s: seq<int>, cnt: nat, index: nat, history: seq<int>, v: int)
    requires Ring(s, cnt, index, history)
    ensures Ring(s[index := v], if cnt < |s| then cnt + 1 else cnt, (1 + index) % |s|, history + [v])
  {
    var index' := (1 + index) % |s|;
    assert index' == if index + 1 < |s| then index + 1 else 0;
    RingNext(s, cnt, index, index', history, v);
  }

  lemma RingNext(s: seq<int>, cnt: nat, index: nat, index': nat, history: seq<int>, v: int)
    requires Ring(s, cnt, index, history) && index' == if index + 1 < |s| then index + 1 else 0
    ensures Ring(s[index := v], if cnt < |s| then cnt + 1 else cnt, index', history + [v])
  {
    var n, len := |history|, |s|;
    assert Written(n + 1, index', index, len) == n;
    forall i | 0 <= i < cnt && i != index
      ensures Written(n + 1, index', i, len) == Written(n, index, i, len)
    {
    }
    assert forall i :: 0 <= i < n ==> (history + [v])[i] == history[i];
  }

  /** Read through the sorted index, the middle of the ring is the median of the window. */
  lemma SortedIndexMedian(o: seq<int>, s: seq<int>, cnt: nat, index: nat, history: seq<int>)
    requires Ring(s, cnt, index, history) && Ordered(o, s, cnt, -1) && history != []
    ensures 0 < |o| == cnt <= |s| && forall k :: 0 <= k < |o| ==> 0 <= o[k] < |s|
    ensures Window(history, |s|) != []
    ensures MedianOf(Window(history, |s|)) == if cnt % 2 == 1 then s[o[cnt / 2]]
                                              else TruncDiv(Add(s[o[cnt / 2 - 1]], s[o[cnt / 2]]), 2)
  {
    hide Sort, IsSorted;
    OrderedValues(o, s, cnt);
    RingWindow(s, cnt, index, history);
    SortSorts(Window(history, |s|));
    IndexSorts(o, s, cnt);
    SortedUnique(Values(o, s), Sort(Window(history, |s|)));
  }

  lemma IndexSorts(o: seq<int>, s: seq<int>, cnt: nat)
    requires Ordered(o, s, cnt, -1)
    ensures IsSorted(Values(o, s))
  {
  }

  class Mmedian {
    const len: nat
    var cnt: nat
    var index: nat
    /** Indices sorted by value. */
    const order: array<int>
    /** Values stored in circular buffer. */
    const samples: array<int>
    /** All samples since the last reset. */
    ghost var history: seq<int>

    ghost predicate Valid()
      reads this, order, samples
    {
      && order != samples && order.Length == samples.Length == len
      && Ring(samples[..], cnt, index, history)
      && Ordered(order[..cnt], samples[..], cnt, -1)
    }

    constructor (length: nat)
      requires length >= 1
      ensures Valid() && history == [] && len == length && fresh(order) && fresh(samples)
    {
      len := length;
      order, samples := new int[length](_ => 0), new int[length](_ => 0);
      cnt, index := 0, 0;
      history := [];
    }

    /** Adds a sample, in place of the oldest one when the ring is full, and returns the median of those held. */
    method Sample(sample: int) returns (median: int)
      requires Valid()
      modifies this, order, samples
      ensures Valid() && history == old(history) + [sample]
      ensures Window(history, len) != [] && median == MedianOf(Window(history, len))
    {
      hide Sort, Ring, Ordered, MedianOf, Window;
      MakeRoom(sample);
      InsertIndex();
      RingStep(old(samples[..]), old(cnt), index, history, sample);
      history := history + [sample];
      index := (1 + index) % len;
      SortedIndexMedian(order[..cnt], samples[..], cnt, index, history);
      if cnt % 2 == 1 {
        median := samples[order[cnt / 2]];
      } else {
        median := TruncDiv(Add(samples[order[cnt / 2 - 1]], samples[order[cnt / 2]]), 2);
      }
    }

    /** Writes the sample to its slot and takes the slot off the index; the end of the index becomes free. */
    method MakeRoom(sample: int)
      requires Valid()
      modifies this`cnt, order, samples
      ensures cnt == if old(cnt) < len then old(cnt) + 1 else old(cnt)
      ensures samples[..] == old(samples[..])[index := sample] && 0 < cnt <= len && index < cnt
      ensures Ordered(order[..cnt - 1], samples[..], cnt, index)
    {
      samples[index] := sample;
      if cnt < len {
        cnt := cnt + 1;
        assert order[..cnt - 1] == old(order[..cnt]);
      } else {
        ghost var o := order[..];
        assert order[..cnt] == o && index in o;
        ghost var p := RemoveIndex();
        RemovedIndex(o, old(samples[..]), cnt, p, sample);
      }
    }

    /** Takes the slot of the next sample off a full index; tells where it was. */
    method RemoveIndex() returns (ghost p: nat)
      requires order.Length == len == cnt && (index as int) in order[..]
      modifies order
      ensures p < len && old(order[p]) == index && order[..len - 1] == Without(old(order[..]), p)
    {
      ghost var o := order[..];
      ghost var q :| 0 <= q < len && o[q] == index;
      var i := 0;
      while order[i] != index
        invariant 0 <= i <= q && order[..] == o
        decreases len - i
      {
        i := i + 1;
      }
      p := i;
      while i + 1 < len
        invariant p <= i < len
        invariant forall k :: 0 <= k < i ==> order[k] == o[if k < p then k else k + 1]
        invariant forall k :: i <= k < len ==> order[k] == o[k]
      {
        order[i] := order[i + 1];
        i := i + 1;
      }
      assert order[..len - 1] == Without(o, p);
    }

    /** Inserts the index of the new value, behind all values that are not greater. */
    method InsertIndex()
      requires order != samples && order.Length == samples.Length == len
      requires 0 < cnt <= len && index < cnt
      requires Ordered(order[..cnt - 1], samples[..], cnt, index)
      modifies order
      ensures Ordered(order[..cnt], samples[..], cnt, -1)
    {
      hide Ordered;
      ghost var o := order[..cnt - 1];
      ListedInRange(o, samples[..], cnt, index);
      var i: nat := cnt - 1;
      while i > 0 && samples[order[i - 1]] > samples[index]
        invariant i <= cnt - 1
        invariant forall k :: 0 <= k < i ==> order[k] == o[k]
        invariant forall k :: i < k < cnt ==> order[k] == o[k - 1]
        invariant i < |o| ==> samples[index] < samples[o[i]]
      {
        order[i] := order[i - 1];
        i := i - 1;
      }
      order[i] := index;
      assert order[..cnt] == With(o, i, index as int);
      InsertedIndex(o, samples[..], cnt, i, index);
    }

    method Reset()
      requires Valid()
      modifies this
      ensures Valid() && history == []
    {
      cnt, index := 0, 0;
      history := [];
    }
  }
}
