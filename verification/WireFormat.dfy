/**
 * What a conversion means for the values: the packed structures of msg.h, tlv.h, ddt.h and ds.h, member by member.
 * Every integer reads afterwards in the other byte order what it read before, and all other bytes are as they were.
 */
module WireFormat {
  import opened Bytes
  import opened Tlv
  import opened TlvSurvival

  /** A member of a packed structure: some octets, or an integer that is in network byte order on the wire. */
  datatype Member = Octets(n: nat) | U16 | U32 | U64

  function Width(m: Member): nat {
    match m
    case Octets(n) => n
    case U16 => 2
    case U32 => 4
    case U64 => 8
  }

  function Size(ms: seq<Member>): nat {
    if ms == [] then 0 else Width(ms[0]) + Size(ms[1..])
  }

  /** A member at p, read in one byte order before and in the other one after. */
  ghost predicate ReadsAs(net: bool, b: seq<Byte>, c: seq<Byte>, p: nat, m: Member)
    requires p + Width(m) <= |b| == |c|
  {
    match m
    case Octets(n) => SameBytes(b, c, p, p + n)
    case U16 => Get16(!net, c, p) == Get16(net, b, p)
    case U32 => Get32(!net, c, p) == Get32(net, b, p)
    case U64 => Get64(!net, c, p) == Get64(net, b, p)
  }

  /** All members of a structure at p. */
  ghost predicate Reads(net: bool, b: seq<Byte>, c: seq<Byte>, p: nat, ms: seq<Member>)
    requires p + Size(ms) <= |b| == |c|
    decreases |ms|
  {
    ms != [] ==> ReadsAs(net, b, c, p, ms[0]) && Reads(net, b, c, p + Width(ms[0]), ms[1..])
  }

  /** Where the integers of a structure at p lie. */
  function Numbers(p: nat, ms: seq<Member>): seq<Field>
    decreases |ms|
  {
    if ms == [] then []
    else
      var rest := Numbers(p + Width(ms[0]), ms[1..]);
      if ms[0].Octets? then rest else [Field(p, Width(ms[0]))] + rest
  }

  lemma {:induction false} NumbersLayout(p: nat, ms: seq<Member>)
    ensures Layout(Numbers(p, ms), p, p + Size(ms))
    decreases |ms|
  {
    if ms != [] {
      NumbersLayout(p + Width(ms[0]), ms[1..]);
    }
  }

  lemma {:induction false} NumbersAppend(p: nat, ms: seq<Member>, ns: seq<Member>)
    ensures Size(ms + ns) == Size(ms) + Size(ns)
    ensures Numbers(p, ms + ns) == Numbers(p, ms) + Numbers(p + Size(ms), ns)
    decreases |ms|
  {
    hide Layout;
    if ms == [] {
      assert ms + ns == ns;
    } else {
      NumbersAppend(p + Width(ms[0]), ms[1..], ns);
      assert (ms + ns)[1..] == ms[1..] + ns;
    }
  }

  lemma Read(net: bool, b: seq<Byte>, c: seq<Byte>, p: nat, m: Member)
    requires p + Width(m) <= |b| == |c|
    requires if m.Octets? then SameBytes(b, c, p, p + Width(m)) else FieldFlipped(b, c, Field(p, Width(m)))
    ensures ReadsAs(net, b, c, p, m)
  {
    hide Get16, Get32, Get64, FieldFlipped, SameBytes;
    match m
    case Octets(_) =>
    case U16 => Get16Flipped(b, c, Field(p, 2));
    case U32 => Get32Flipped(b, c, Field(p, 4));
    case U64 => Get64Flipped(b, c, Field(p, 8));
  }

  /** Converting just the integers of a structure makes them read in the other byte order. */
  lemma {:induction false} FlippedReads(net: bool, b: seq<Byte>, c: seq<Byte>, p: nat, ms: seq<Member>)
    requires p + Size(ms) <= |b| == |c|
    requires Layout(Numbers(p, ms), p, p + Size(ms)) && Flipped(b, c, Numbers(p, ms), p, p + Size(ms))
    ensures Reads(net, b, c, p, ms)
    decreases |ms|
  {
    hide ReadsAs, FieldFlipped;
    if ms != [] {
      FirstFlipped(b, c, p, ms);
      Read(net, b, c, p, ms[0]);
      FlippedReads(net, b, c, p + Width(ms[0]), ms[1..]);
    }
  }

  /** A conversion of a structure, taken apart into its first member and the others. */
  lemma FirstFlipped(b: seq<Byte>, c: seq<Byte>, p: nat, ms: seq<Member>)
    requires ms != [] && p + Size(ms) <= |b| == |c|
    requires Layout(Numbers(p, ms), p, p + Size(ms)) && Flipped(b, c, Numbers(p, ms), p, p + Size(ms))
    ensures var m, next := ms[0], p + Width(ms[0]);
            && (if m.Octets? then SameBytes(b, c, p, next) else FieldFlipped(b, c, Field(p, Width(m))))
            && Layout(Numbers(next, ms[1..]), next, p + Size(ms))
            && Flipped(b, c, Numbers(next, ms[1..]), next, p + Size(ms))
  {
    hide FieldFlipped, Layout;
    var m, next, hi := ms[0], p + Width(ms[0]), p + Size(ms);
    var first := if m.Octets? then [] else [Field(p, Width(m))];
    var rest := Numbers(next, ms[1..]);
    assert Numbers(p, ms) == first + rest + [];
    FirstLayout(p, m, hi);
    NumbersLayout(next, ms[1..]);
    FlippedPart(b, c, first, rest, [], p, next, hi, hi);
    if m.Octets? {
      forall i | p <= i < next
        ensures b[i] == c[i]
      {
        FreeBelow(rest, next, hi, i);
      }
    } else {
      assert (first + rest)[0] == Field(p, Width(m));
    }
  }

  lemma FirstLayout(p: nat, m: Member, hi: nat)
    ensures Layout(if m.Octets? then [] else [Field(p, Width(m))], p, p + Width(m)) && Layout([], hi, hi)
  {
  }

  lemma FreeBelow(fs: seq<Field>, lo: nat, hi: nat, i: int)
    requires Layout(fs, lo, hi) && i < lo
    ensures Free(fs, i)
  {
  }

  lemma AtFirst(p: nat, f: Field, fs: seq<Field>)
    ensures At(p, []) == []
    ensures At(p, [f] + fs) == [Field(p + f.off, f.len)] + At(p, fs)
  {
  }

  lemma {:induction false} NumbersAt(p: nat, q: nat, ms: seq<Member>)
    ensures Numbers(p + q, ms) == At(p, Numbers(q, ms))
    decreases |ms|
  {
    hide Layout, At;
    if ms != [] {
      var rest := Numbers(q + Width(ms[0]), ms[1..]);
      NumbersAt(p, q + Width(ms[0]), ms[1..]);
      AtFirst(p, Field(q, Width(ms[0])), rest);
    }
  }

  /** A structure with octets behind it. */
  lemma NumbersThenOctets(p: nat, ms: seq<Member>, n: nat)
    ensures Size(ms + [Octets(n)]) == Size(ms) + n && Numbers(p, ms + [Octets(n)]) == Numbers(p, ms)
  {
    hide Layout;
    NumbersAppend(p, ms, [Octets(n)]);
  }

  lemma {:induction false} ReadsAppend(net: bool, b: seq<Byte>, c: seq<Byte>, p: nat, ms: seq<Member>, ns: seq<Member>)
    requires p + Size(ms + ns) <= |b| == |c| && Reads(net, b, c, p, ms + ns)
    ensures Size(ms + ns) == Size(ms) + Size(ns)
    ensures Reads(net, b, c, p, ms) && Reads(net, b, c, p + Size(ms), ns)
    decreases |ms|
  {
    hide ReadsAs;
    if ms == [] {
      assert ms + ns == ns;
    } else {
      assert (ms + ns)[1..] == ms[1..] + ns;
      ReadsAppend(net, b, c, p + Width(ms[0]), ms[1..], ns);
    }
  }
}
