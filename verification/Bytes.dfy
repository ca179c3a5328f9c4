/**
 * Byte order conversion in place. The host is little-endian, so converting a multi-byte field in either
 * direction reverses its bytes, and converting it twice restores it.
 */
module Bytes {
  type Byte = x: int | 0 <= x < 256

  /** The bytes from off up to off + len hold one multi-byte value. */
  datatype Field = Field(off: nat, len: nat)

  predicate Covers(f: Field, i: int) { f.off <= i < f.off + f.len }

  function Mirror(f: Field, i: int): int { 2 * f.off + f.len - 1 - i }

  function Flip(b: seq<Byte>, f: Field): (r: seq<Byte>)
    requires f.off + f.len <= |b|
    ensures |r| == |b|
    ensures forall i :: 0 <= i < |b| ==> r[i] == if Covers(f, i) then b[Mirror(f, i)] else b[i]
  {
    seq(|b|, i requires 0 <= i < |b| => if Covers(f, i) then b[Mirror(f, i)] else b[i])
  }

  /** In ascending order, without overlap, from lo up to hi. */
  ghost predicate Layout(fs: seq<Field>, lo: nat, hi: nat) {
    && (forall k :: 0 <= k < |fs| ==> lo <= fs[k].off && fs[k].off + fs[k].len <= hi)
    && (forall j, k :: 0 <= j < k < |fs| ==> fs[j].off + fs[j].len <= fs[k].off)
  }

  ghost predicate Free(fs: seq<Field>, i: int) {
    forall k :: 0 <= k < |fs| ==> !Covers(fs[k], i)
  }

  function FlipAll(b: seq<Byte>, fs: seq<Field>): (r: seq<Byte>)
    requires forall k :: 0 <= k < |fs| ==> fs[k].off + fs[k].len <= |b|
    ensures |r| == |b|
    decreases |fs|
  {
    if fs == [] then b else FlipAll(Flip(b, fs[0]), fs[1..])
  }

  lemma LayoutJoin(fs: seq<Field>, gs: seq<Field>, lo: nat, mid: nat, hi: nat)
    requires Layout(fs, lo, mid) && Layout(gs, mid, hi) && lo <= mid <= hi
    ensures Layout(fs + gs, lo, hi)
  {
  }

  lemma LayoutTail(fs: seq<Field>, lo: nat, hi: nat)
    requires Layout(fs, lo, hi) && fs != []
    ensures Layout(fs[1..], fs[0].off + fs[0].len, hi)
  {
  }

  lemma {:induction false} FlipAllAppend(b: seq<Byte>, fs: seq<Field>, gs: seq<Field>)
    requires forall k :: 0 <= k < |fs| ==> fs[k].off + fs[k].len <= |b|
    requires forall k :: 0 <= k < |gs| ==> gs[k].off + gs[k].len <= |b|
    ensures FlipAll(b, fs + gs) == FlipAll(FlipAll(b, fs), gs)
    decreases |fs|
  {
    if fs == [] {
      assert fs + gs == gs;
    } else {
      FlipAllAppend(Flip(b, fs[0]), fs[1..], gs);
      assert (fs + gs)[1..] == fs[1..] + gs;
    }
  }

  /** A byte outside all fields stays. */
  lemma {:induction false} FlipAllFree(b: seq<Byte>, fs: seq<Field>, i: nat)
    requires forall k :: 0 <= k < |fs| ==> fs[k].off + fs[k].len <= |b|
    requires i < |b| && Free(fs, i)
    ensures FlipAll(b, fs)[i] == b[i]
    decreases |fs|
  {
    if fs != [] {
      assert !Covers(fs[0], i);
      FlipAllFree(Flip(b, fs[0]), fs[1..], i);
    }
  }

  /** A byte of a field trades places with its mirror image. */
  lemma {:induction false} FlipAllCovered(b: seq<Byte>, fs: seq<Field>, lo: nat, hi: nat, k: nat, i: nat)
    requires Layout(fs, lo, hi) && hi <= |b| && k < |fs| && Covers(fs[k], i)
    ensures FlipAll(b, fs)[i] == b[Mirror(fs[k], i)]
    decreases |fs|
  {
    LayoutTail(fs, lo, hi);
    if k == 0 {
      FlipAllFree(Flip(b, fs[0]), fs[1..], i);
    } else {
      assert fs[1..][k - 1] == fs[k];
      FlipAllCovered(Flip(b, fs[0]), fs[1..], fs[0].off + fs[0].len, hi, k - 1, i);
    }
  }

  ghost predicate FieldFlipped(b: seq<Byte>, c: seq<Byte>, f: Field)
    requires f.off + f.len <= |b| == |c|
  {
    forall i :: Covers(f, i) ==> c[i] == b[Mirror(f, i)]
  }

  /** What FlipAll does, field by field and byte by byte, on the stretch from lo up to hi. */
  ghost predicate Flipped(b: seq<Byte>, c: seq<Byte>, fs: seq<Field>, lo: nat, hi: nat)
    requires lo <= hi <= |b| == |c|
    requires Layout(fs, lo, hi)
  {
    && (forall k :: 0 <= k < |fs| ==> FieldFlipped(b, c, fs[k]))
    && (forall i :: lo <= i < hi && Free(fs, i) ==> c[i] == b[i])
  }

  lemma FlipAllField(b: seq<Byte>, fs: seq<Field>, k: nat)
    requires Layout(fs, 0, |b|) && k < |fs|
    ensures FieldFlipped(b, FlipAll(b, fs), fs[k])
  {
    forall i | Covers(fs[k], i)
      ensures FlipAll(b, fs)[i] == b[Mirror(fs[k], i)]
    {
      FlipAllCovered(b, fs, 0, |b|, k, i);
    }
  }

  /** On the stretch of its own fields, a longer conversion looks like the conversion of those fields. */
  lemma FlipAllFlipped(b: seq<Byte>, before: seq<Field>, fs: seq<Field>, after: seq<Field>, lo: nat, hi: nat)
    requires lo <= hi <= |b|
    requires Layout(before, 0, lo) && Layout(fs, lo, hi) && Layout(after, hi, |b|)
    ensures Layout(before + fs + after, 0, |b|)
    ensures Flipped(b, FlipAll(b, before + fs + after), fs, lo, hi)
  {
    var all := before + fs + after;
    LayoutJoin(before, fs, 0, lo, hi);
    LayoutJoin(before + fs, after, 0, hi, |b|);
    hide FieldFlipped, Layout;
    forall k | 0 <= k < |fs|
      ensures FieldFlipped(b, FlipAll(b, all), fs[k])
    {
      assert all[|before| + k] == fs[k];
      FlipAllField(b, all, |before| + k);
    }
    forall i | lo <= i < hi && Free(fs, i)
      ensures FlipAll(b, all)[i] == b[i]
    {
      FreeJoin(before, fs, after, lo, hi, |b|, i);
      FlipAllFree(b, all, i);
    }
  }

  lemma FreeJoin(before: seq<Field>, fs: seq<Field>, after: seq<Field>, lo: nat, hi: nat, end: nat, i: nat)
    requires Layout(before, 0, lo) && Layout(after, hi, end) && lo <= i < hi
    requires Free(fs, i)
    ensures Free(before + fs + after, i)
  {
  }

  /** Two conversions of the same fields cancel. */
  lemma FlipAllTwice(b: seq<Byte>, fs: seq<Field>)
    requires Layout(fs, 0, |b|)
    ensures FlipAll(FlipAll(b, fs), fs) == b
  {
    var c := FlipAll(b, fs);
    forall i | 0 <= i < |b|
      ensures FlipAll(c, fs)[i] == b[i]
    {
      RestoreByte(b, fs, i);
    }
  }

  lemma RestoreByte(b: seq<Byte>, fs: seq<Field>, i: nat)
    requires Layout(fs, 0, |b|) && i < |b|
    ensures FlipAll(FlipAll(b, fs), fs)[i] == b[i]
  {
    hide FlipAll, Layout;
    if Free(fs, i) {
      RestoreFree(b, fs, i);
    } else {
      var k :| 0 <= k < |fs| && Covers(fs[k], i);
      RestoreCovered(b, fs, k, i);
    }
  }

  lemma RestoreFree(b: seq<Byte>, fs: seq<Field>, i: nat)
    requires Layout(fs, 0, |b|) && i < |b| && Free(fs, i)
    ensures FlipAll(FlipAll(b, fs), fs)[i] == b[i]
  {
    hide FlipAll, Free;
    FlipAllFree(b, fs, i);
    FlipAllFree(FlipAll(b, fs), fs, i);
  }

  lemma RestoreCovered(b: seq<Byte>, fs: seq<Field>, k: nat, i: nat)
    requires Layout(fs, 0, |b|) && i < |b| && k < |fs| && Covers(fs[k], i)
    ensures FlipAll(FlipAll(b, fs), fs)[i] == b[i]
  {
    hide FlipAll;
    FlipAllCovered(FlipAll(b, fs), fs, 0, |b|, k, i);
    FlipAllCovered(b, fs, 0, |b|, k, Mirror(fs[k], i));
  }

  /** Fields can be converted in any order: a field below all others may come last. */
  lemma {:induction false} FlipAllCommute(b: seq<Byte>, f: Field, fs: seq<Field>, hi: nat)
    requires f.off + f.len <= hi <= |b| && Layout(fs, f.off + f.len, hi)
    ensures FlipAll(b, [f] + fs) == Flip(FlipAll(b, fs), f)
    ensures FlipAll(b, [f] + fs) == FlipAll(Flip(b, f), fs)
    decreases |fs|
  {
    assert ([f] + fs)[1..] == fs;
    if fs != [] {
      LayoutTail(fs, f.off + f.len, hi);
      assert Layout(fs[1..], f.off + f.len, hi);
      FlipAllCommute(Flip(b, fs[0]), f, fs[1..], hi);
      assert ([f] + fs[1..])[1..] == fs[1..];
      assert Flip(Flip(b, fs[0]), f) == Flip(Flip(b, f), fs[0]);
    }
  }

  /** The same for a whole block of fields below the others. */
  lemma {:induction false} CommuteBlocks(b: seq<Byte>, fs: seq<Field>, gs: seq<Field>, mid: nat)
    requires mid <= |b| && Layout(fs, 0, mid) && Layout(gs, mid, |b|)
    ensures FlipAll(b, fs + gs) == FlipAll(FlipAll(b, gs), fs)
    decreases |fs|
  {
    if fs == [] {
      assert fs + gs == gs;
    } else {
      var init, last := fs[..|fs| - 1], fs[|fs| - 1];
      assert fs + gs == init + ([last] + gs) && fs == init + [last];
      FlipAllAppend(b, init, [last] + gs);
      LayoutBelow(last, gs, mid, |b|);
      FlipAllCommute(FlipAll(b, init), last, gs, |b|);
      FlipAllAppend(b, init, gs);
      CommuteBlocks(b, init, gs, mid);
      FlipAllAppend(FlipAll(b, gs), init, [last]);
      FlipOne(FlipAll(FlipAll(b, gs), init), last);
    }
  }

  lemma LayoutBelow(f: Field, gs: seq<Field>, mid: nat, hi: nat)
    requires f.off + f.len <= mid && Layout(gs, mid, hi)
    ensures Layout(gs, f.off + f.len, hi)
  {
  }

  lemma FlipOne(b: seq<Byte>, f: Field)
    requires f.off + f.len <= |b|
    ensures FlipAll(b, [f]) == Flip(b, f)
  {
  }

  // ----- reading values

  /** A 16-bit value in network or in host byte order. */
  function Get16(net: bool, b: seq<Byte>, o: nat): (v: int)
    requires o + 2 <= |b|
    ensures 0 <= v < 0x1_0000
  {
    if net then b[o] as int * 256 + b[o + 1] as int else b[o] as int + 256 * b[o + 1] as int
  }

  function Get32(net: bool, b: seq<Byte>, o: nat): (v: int)
    requires o + 4 <= |b|
    ensures 0 <= v < 0x1_0000_0000
  {
    if net then Get16(true, b, o) * 0x1_0000 + Get16(true, b, o + 2)
    else Get16(false, b, o) + 0x1_0000 * Get16(false, b, o + 2)
  }

  function Get64(net: bool, b: seq<Byte>, o: nat): (v: int)
    requires o + 8 <= |b|
    ensures 0 <= v < 0x1_0000_0000_0000_0000
  {
    if net then Get32(true, b, o) * 0x1_0000_0000 + Get32(true, b, o + 4)
    else Get32(false, b, o) + 0x1_0000_0000 * Get32(false, b, o + 4)
  }

  lemma Get16Flipped(b: seq<Byte>, c: seq<Byte>, f: Field)
    requires f.off + f.len <= |b| == |c| && f.len == 2 && FieldFlipped(b, c, f)
    ensures forall net: bool :: Get16(!net, c, f.off) == Get16(net, b, f.off)
  {
  }

  lemma Get32Flipped(b: seq<Byte>, c: seq<Byte>, f: Field)
    requires f.off + f.len <= |b| == |c| && f.len == 4 && FieldFlipped(b, c, f)
    ensures forall net: bool :: Get32(!net, c, f.off) == Get32(net, b, f.off)
  {
    Get16Mirrored(b, c, f.off, f.off + 2);
    Get16Mirrored(b, c, f.off + 2, f.off);
  }

  lemma Get64Flipped(b: seq<Byte>, c: seq<Byte>, f: Field)
    requires f.off + f.len <= |b| == |c| && f.len == 8 && FieldFlipped(b, c, f)
    ensures forall net: bool :: Get64(!net, c, f.off) == Get64(net, b, f.off)
  {
    hide Get32;
    Get32Mirrored(b, c, f.off, f.off + 4);
    Get32Mirrored(b, c, f.off + 4, f.off);
  }

  /** The bytes at o are those from p, last one first. */
  lemma Get16Mirrored(b: seq<Byte>, c: seq<Byte>, o: nat, p: nat)
    requires o + 2 <= |b| == |c| && p + 2 <= |b| && c[o] == b[p + 1] && c[o + 1] == b[p]
    ensures forall net: bool :: Get16(!net, c, o) == Get16(net, b, p)
  {
  }

  lemma Get32Mirrored(b: seq<Byte>, c: seq<Byte>, o: nat, p: nat)
    requires o + 4 <= |b| == |c| && p + 4 <= |b|
    requires c[o] == b[p + 3] && c[o + 1] == b[p + 2] && c[o + 2] == b[p + 1] && c[o + 3] == b[p]
    ensures forall net: bool :: Get32(!net, c, o) == Get32(net, b, p)
  {
    hide Get16;
    Get16Mirrored(b, c, o, p + 2);
    Get16Mirrored(b, c, o + 2, p);
  }

  // ----- in place

  method FlipInPlace(a: array<Byte>, f: Field)
    requires f.off + f.len <= a.Length
    modifies a
    ensures a[..] == Flip(old(a[..]), f)
  {
    var i := 0;
    while i < f.len / 2
      invariant 0 <= i <= f.len / 2
      invariant forall j :: 0 <= j < a.Length ==>
                  a[j] == if f.off <= j < f.off + i || f.off + f.len - i <= j < f.off + f.len
                          then old(a[Mirror(f, j)]) else old(a[j])
    {
      a[f.off + i], a[f.off + f.len - 1 - i] := a[f.off + f.len - 1 - i], a[f.off + i];
      i := i + 1;
    }
    assert forall j :: 0 <= j < a.Length && Covers(f, j) && !(j < f.off + i || f.off + f.len - i <= j) ==>
             Mirror(f, j) == j;
  }

  method FlipAllInPlace(a: array<Byte>, fs: seq<Field>)
    requires forall k :: 0 <= k < |fs| ==> fs[k].off + fs[k].len <= a.Length
    modifies a
    ensures a[..] == FlipAll(old(a[..]), fs)
  {
    var i := 0;
    while i < |fs|
      invariant 0 <= i <= |fs|
      invariant FlipAll(a[..], fs[i..]) == FlipAll(old(a[..]), fs)
    {
      FlipInPlace(a, fs[i]);
      assert fs[i..][1..] == fs[i + 1..];
      i := i + 1;
    }
    assert fs[i..] == [];
  }
}
