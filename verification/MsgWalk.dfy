/** The walk over a whole message (msg.c): header, body and the TLVs of the suffix. */
module MsgWalk {
  import opened Bytes
  import opened Tlv
  import opened TlvSurvival
  import opened Tmv

  /** A TLV descriptor: where the TLV starts, and the pointers into it. */
  datatype Descriptor = Descriptor(off: nat, extra: Extra)

  datatype Suffix = BadSuffix | Suffix(fields: seq<Field>, tlvs: seq<Descriptor>, stop: nat)

  /** In front of a suffix: more fields and descriptors, unless the suffix is bad. */
  function Prepend(fields: seq<Field>, tlvs: seq<Descriptor>, s: Suffix): Suffix {
    if s.BadSuffix? then BadSuffix else Suffix(fields + s.fields, tlvs + s.tlvs, s.stop)
  }

  function TlvFields(o: nat, w: Walk): seq<Field>
    requires w.Walk?
  {
    [Field(o, 2), Field(o + 2, 2)] + w.fields
  }

  lemma TlvLayout(o: nat, w: Walk, hi: nat)
    requires w.Walk? && Layout(w.fields, o + TLV_HEADER, hi) && o + TLV_HEADER <= hi
    ensures Layout(TlvFields(o, w), o, hi)
  {
  }

  function SuffixWalk(net: bool, b: seq<Byte>, o: nat, end: nat): (s: Suffix)
    requires o <= end <= |b|
    ensures s.Suffix? ==> o <= s.stop <= end < s.stop + TLV_HEADER && Layout(s.fields, o, s.stop)
    decreases end - o
  {
    if end - o < TLV_HEADER then Suffix([], [], o)
    else
      var kind, length := Get16(net, b, o), Get16(net, b, o + 2);
      var next := o + TLV_HEADER + length;
      if length % 2 != 0 || end < next then BadSuffix
      else
        var w := BodyWalk(net, b, o, kind, length);
        if w.BadLength? then BadSuffix
        else
          var rest := SuffixWalk(net, b, next, end);
          TlvLayout(o, w, next);
          if rest.Suffix? then
            LayoutJoin(TlvFields(o, w), rest.fields, o, next, rest.stop);
            Prepend(TlvFields(o, w), [Descriptor(o, w.extra)], rest)
          else BadSuffix
  }

  /** A suffix accepted in one byte order is accepted in the other, with the same fields and descriptors. */
  lemma {:induction false} SuffixSurvives(net: bool, b: seq<Byte>, c: seq<Byte>, o: nat, end: nat)
    requires o <= end <= |b| == |c| && SuffixWalk(net, b, o, end).Suffix?
    requires var s := SuffixWalk(net, b, o, end); Flipped(b, c, s.fields, o, s.stop)
    ensures SuffixWalk(!net, c, o, end) == SuffixWalk(net, b, o, end)
    decreases end - o
  {
    hide Flipped, BodyWalk, Layout;
    if end - o >= TLV_HEADER {
      var kind, length := Get16(net, b, o), Get16(net, b, o + 2);
      var next := o + TLV_HEADER + length;
      var w, rest := BodyWalk(net, b, o, kind, length), SuffixWalk(net, b, next, end);
      TlvLayout(o, w, next);
      LayoutJoin(TlvFields(o, w), rest.fields, o, next, rest.stop);
      FlippedTlv(net, b, c, o, w, next, rest.fields, rest.stop);
      BodySurvives(net, b, c, o, kind, length);
      SuffixSurvives(net, b, c, next, end);
    }
  }

  /** A conversion of a TLV and what follows, taken apart. */
  lemma FlippedTlv(net: bool, b: seq<Byte>, c: seq<Byte>, o: nat, w: Walk, next: nat, after: seq<Field>, stop: nat)
    requires w.Walk? && o + TLV_HEADER <= next <= stop <= |b| == |c|
    requires Layout(w.fields, o + TLV_HEADER, next) && Layout(after, next, stop)
    requires Layout(TlvFields(o, w) + after, o, stop) && Flipped(b, c, TlvFields(o, w) + after, o, stop)
    ensures Get16(!net, c, o) == Get16(net, b, o) && Get16(!net, c, o + 2) == Get16(net, b, o + 2)
    ensures Flipped(b, c, w.fields, o + TLV_HEADER, next) && Flipped(b, c, after, next, stop)
  {
    hide FieldFlipped, Layout;
    var header := [Field(o, 2), Field(o + 2, 2)];
    var all := TlvFields(o, w) + after;
    assert all == header + w.fields + after == TlvFields(o, w) + after + [];
    assert all[0] == Field(o, 2) && all[1] == Field(o + 2, 2);
    Get16Flipped(b, c, Field(o, 2));
    Get16Flipped(b, c, Field(o + 2, 2));
    HeaderLayout(o);
    FlippedPart(b, c, header, w.fields, after, o, o + TLV_HEADER, next, stop);
    TlvLayout(o, w, next);
    NoFieldsLayout(stop);
    FlippedPart(b, c, TlvFields(o, w), after, [], o, next, stop, stop);
  }

  lemma HeaderLayout(o: nat)
    ensures Layout([Field(o, 2), Field(o + 2, 2)], o, o + TLV_HEADER)
  {
  }

  lemma NoFieldsLayout(o: nat)
    ensures Layout([], o, o)
  {
  }

  /** Descriptors that tile a stretch: each starts where the one before ends, and all lengths are even. */
  ghost predicate Tiles(b: seq<Byte>, tlvs: seq<Descriptor>, o: nat, stop: nat)
    decreases tlvs
  {
    if tlvs == [] then o == stop
    else
      && tlvs[0].off == o && o + TLV_HEADER <= stop <= |b|
      && Get16(false, b, o + 2) % 2 == 0
      && o + TLV_HEADER + Get16(false, b, o + 2) <= stop
      && Tiles(b, tlvs[1..], o + TLV_HEADER + Get16(false, b, o + 2), stop)
  }

  lemma {:induction false} SuffixTiles(b: seq<Byte>, o: nat, end: nat)
    requires o <= end <= |b| && SuffixWalk(false, b, o, end).Suffix?
    ensures Tiles(b, SuffixWalk(false, b, o, end).tlvs, o, SuffixWalk(false, b, o, end).stop)
    decreases end - o
  {
    if end - o >= TLV_HEADER {
      var next := o + TLV_HEADER + Get16(false, b, o + 2);
      SuffixTiles(b, next, end);
      var s := SuffixWalk(false, b, o, end);
      assert s.tlvs[1..] == SuffixWalk(false, b, next, end).tlvs;
    }
  }

  // ----- header and body

  const SYNC := 0x0
  const DELAY_REQ := 0x1
  const PDELAY_REQ := 0x2
  const PDELAY_RESP := 0x3
  const FOLLOW_UP := 0x8
  const DELAY_RESP := 0x9
  const PDELAY_RESP_FOLLOW_UP := 0xA
  const ANNOUNCE := 0xB
  const SIGNALING := 0xC
  const MANAGEMENT := 0xD

  const HEADER_LENGTH := 34
  const PTP_MAJOR_VERSION := 2

  function MsgType(b: seq<Byte>): int
    requires |b| > 0
  {
    b[0] as int % 16
  }

  predicate KnownType(kind: int) {
    kind in {SYNC, DELAY_REQ, PDELAY_REQ, PDELAY_RESP, FOLLOW_UP, DELAY_RESP, PDELAY_RESP_FOLLOW_UP, ANNOUNCE,
             SIGNALING, MANAGEMENT}
  }

  function PduLength(kind: int): (n: nat)
    ensures 44 <= n <= 64
  {
    if kind in {SYNC, DELAY_REQ, FOLLOW_UP, SIGNALING} then 44
    else if kind == ANNOUNCE then 64
    else if kind == MANAGEMENT then 48
    else 54
  }

  const HEADER_FIELDS: seq<Field> := [Field(2, 2), Field(8, 8), Field(28, 2), Field(30, 2)]

  /** The body timestamp, converted only on the way out. */
  function TimestampFields(kind: int): (fs: seq<Field>)
    ensures Layout(fs, 34, 44)
  {
    if kind in {PDELAY_RESP, FOLLOW_UP, DELAY_RESP, PDELAY_RESP_FOLLOW_UP}
    then [Field(34, 2), Field(36, 4), Field(40, 4)] else []
  }

  /** The body fields behind the timestamp, or in its place; converted in both directions. */
  function BodyFields(kind: int): (fs: seq<Field>)
    ensures TimestampFields(kind) != [] || kind == ANNOUNCE ==> Layout(fs, 44, PduLength(kind))
    ensures Layout(fs, 34, PduLength(kind))
  {
    if kind in {PDELAY_RESP, DELAY_RESP, PDELAY_RESP_FOLLOW_UP} then [Field(52, 2)]
    else if kind == ANNOUNCE then [Field(44, 2), Field(50, 2), Field(61, 2)]
    else if kind == SIGNALING || kind == MANAGEMENT then [Field(42, 2)]
    else []
  }

  datatype Errno = EBADMSG | EPROTO

  datatype Message = Refused(err: Errno) | Accepted(kind: int, fields: seq<Field>, tlvs: seq<Descriptor>)

  /** What msg_post_recv makes of cnt received bytes; without net, what a sender must have built. */
  function Examine(net: bool, b: seq<Byte>, cnt: nat): (m: Message)
    requires cnt <= |b|
    ensures m.Accepted? ==> Layout(m.fields, 0, cnt)
  {
    if cnt < HEADER_LENGTH then Refused(EBADMSG)
    else if b[1] as int % 16 != PTP_MAJOR_VERSION then Refused(EPROTO)
    else
      var kind := MsgType(b);
      if !KnownType(kind) || cnt < PduLength(kind) then Refused(EBADMSG)
      else
        var s := SuffixWalk(net, b, PduLength(kind), cnt);
        if s.BadSuffix? || s.stop != Get16(net, b, 2) then Refused(EBADMSG)
        else
          FixedLayout(kind);
          LayoutJoin(HEADER_FIELDS + BodyFields(kind), s.fields, 0, PduLength(kind), s.stop);
          LayoutWiden(HEADER_FIELDS + BodyFields(kind) + s.fields, 0, s.stop, 0, cnt);
          Accepted(kind, HEADER_FIELDS + BodyFields(kind) + s.fields, s.tlvs)
  }

  /** The fields msg_pre_send converts: those that msg_post_recv restores, and the body timestamp. */
  function SendFields(kind: int, suffix: seq<Field>): seq<Field> {
    HEADER_FIELDS + TimestampFields(kind) + BodyFields(kind) + suffix
  }

  lemma FixedLayout(kind: int)
    ensures Layout(HEADER_FIELDS + BodyFields(kind), 0, PduLength(kind))
    ensures Layout(HEADER_FIELDS + TimestampFields(kind) + BodyFields(kind), 0, PduLength(kind))
  {
    assert Layout(HEADER_FIELDS, 0, 34);
    LayoutJoin(HEADER_FIELDS, BodyFields(kind), 0, 34, PduLength(kind));
    if TimestampFields(kind) == [] {
      assert HEADER_FIELDS + TimestampFields(kind) == HEADER_FIELDS;
    } else {
      LayoutJoin(HEADER_FIELDS, TimestampFields(kind), 0, 34, 44);
      LayoutJoin(HEADER_FIELDS + TimestampFields(kind), BodyFields(kind), 0, 44, PduLength(kind));
    }
  }

  /** timestamp_post_recv: the three wire fields at offset 34, taken from network order. */
  function WireTimestamp(b: seq<Byte>): HostTimestamp
    requires |b| >= 44
  {
    Assemble(Timestamp(Get16(true, b, 34), Get32(true, b, 36), Get32(true, b, 40)))
  }

  function BodyTimestamp(b: seq<Byte>): HostTimestamp
    requires |b| >= 44
  {
    Assemble(Timestamp(Get16(false, b, 34), Get32(false, b, 36), Get32(false, b, 40)))
  }
}
