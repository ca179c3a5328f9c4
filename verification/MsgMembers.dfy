/**
 * What receiving and sending do to the values of a message (msg.c): every integer of the header, of the body and of
 * the TLVs reads in the one byte order what it read in the other, and all other bytes stay.
 */
module MsgMembers {
  import opened Bytes
  import opened Tlv
  import opened TlvSurvival
  import opened WireFormat
  import opened TlvMembers
  import opened MsgWalk
  import opened MsgRoundTrip

  /** messageLength, correction, port number and sequenceId. */
  ghost predicate HeaderReads(net: bool, b: seq<Byte>, c: seq<Byte>)
    requires 34 <= |b| == |c|
  {
    && SameBytes(b, c, 0, 2) && Get16(!net, c, 2) == Get16(net, b, 2)
    && SameBytes(b, c, 4, 8) && Get64(!net, c, 8) == Get64(net, b, 8)
    && SameBytes(b, c, 16, 28) && Get16(!net, c, 28) == Get16(net, b, 28)
    && Get16(!net, c, 30) == Get16(net, b, 30) && SameBytes(b, c, 32, 34)
  }

  /** The time stamp of a body, converted only when sending. */
  ghost predicate TimestampReads(net: bool, b: seq<Byte>, c: seq<Byte>)
    requires 44 <= |b| == |c|
  {
    if net then SameBytes(b, c, 34, 44)
    else Get16(true, c, 34) == Get16(false, b, 34) && Get32(true, c, 36) == Get32(false, b, 36)
         && Get32(true, c, 40) == Get32(false, b, 40)
  }

  /** The body of each type: UTC offset, variance and steps of an Announce, or a port number. */
  ghost predicate BodyReads(net: bool, b: seq<Byte>, c: seq<Byte>, kind: int)
    requires KnownType(kind) && BodyEnd(kind) <= |b| == |c|
  {
    if kind == SYNC || kind == DELAY_REQ then SameBytes(b, c, 34, 44)
    else if kind == PDELAY_REQ then SameBytes(b, c, 34, 54)
    else if kind == FOLLOW_UP then TimestampReads(net, b, c)
    else if kind == ANNOUNCE then
      && SameBytes(b, c, 34, 44) && Get16(!net, c, 44) == Get16(net, b, 44)
      && SameBytes(b, c, 46, 50) && Get16(!net, c, 50) == Get16(net, b, 50)
      && SameBytes(b, c, 52, 61) && Get16(!net, c, 61) == Get16(net, b, 61) && c[63] == b[63]
    else if kind == SIGNALING then SameBytes(b, c, 34, 42) && Get16(!net, c, 42) == Get16(net, b, 42)
    else if kind == MANAGEMENT then
      SameBytes(b, c, 34, 42) && Get16(!net, c, 42) == Get16(net, b, 42) && SameBytes(b, c, 44, 48)
    else
      TimestampReads(net, b, c) && SameBytes(b, c, 44, 52) && Get16(!net, c, 52) == Get16(net, b, 52)
  }

  const HEADER_STRUCT: seq<Member> := [Octets(2), U16, Octets(4), U64, Octets(12), U16, U16, Octets(2)]

  /** The structure of a message behind its header; without sending, time stamps count as octets. */
  function BodyStruct(kind: int, sending: bool): seq<Member> {
    var time := if sending then TIMESTAMP else [Octets(10)];
    if kind == SYNC || kind == DELAY_REQ then [Octets(10)]
    else if kind == PDELAY_REQ then [Octets(20)]
    else if kind == FOLLOW_UP then time
    else if kind == ANNOUNCE then [Octets(10), U16, Octets(4), U16, Octets(9), U16, Octets(1)]
    else if kind == SIGNALING then [Octets(8), U16]
    else if kind == MANAGEMENT then [Octets(8), U16, Octets(4)]
    else time + [Octets(8), U16]
  }

  function BodyEnd(kind: int): nat { 34 + Size(BodyStruct(kind, false)) }

  /** The TLVs from o on, one after the other. */
  ghost predicate SuffixReads(net: bool, b: seq<Byte>, c: seq<Byte>, o: nat, end: nat)
    requires o <= end <= |b| == |c|
    decreases end - o
  {
    if end - o < TLV_HEADER then SameBytes(b, c, o, end)
    else
      var kind, length := Get16(net, b, o), Get16(net, b, o + 2);
      && Get16(!net, c, o) == kind && Get16(!net, c, o + 2) == length
      && length % 2 == 0 && o + TLV_HEADER + length <= end && BodyWalk(net, b, o, kind, length).Walk?
      && Size(ValueMembers(net, b, o, kind, length)) == length
      && Reads(net, b, c, o + TLV_HEADER, ValueMembers(net, b, o, kind, length))
      && SuffixReads(net, b, c, o + TLV_HEADER + length, end)
  }

  /** A whole message of cnt bytes, in network byte order with net, and converted to the other one. */
  ghost predicate MessageReads(net: bool, b: seq<Byte>, c: seq<Byte>, cnt: nat)
    requires cnt <= |b| == |c|
  {
    && 34 <= cnt && KnownType(MsgType(b)) && BodyEnd(MsgType(b)) <= cnt
    && HeaderReads(net, b, c) && BodyReads(net, b, c, MsgType(b))
    && SuffixReads(net, b, c, BodyEnd(MsgType(b)), cnt)
    && SameBytes(b, c, cnt, |b|)
  }

  lemma HeaderNumbers()
    ensures Size(HEADER_STRUCT) == 34 && Numbers(0, HEADER_STRUCT) == HEADER_FIELDS
  {
    var first: seq<Member> := [Octets(2), U16, Octets(4), U64];
    assert Size([Octets(2), U16, Octets(4), U64]) == 16;
    assert Numbers(0, [Octets(2), U16, Octets(4), U64]) == [Field(2, 2), Field(8, 8)];
    assert Size([Octets(12), U16, U16, Octets(2)]) == 18;
    assert Numbers(16, [Octets(12), U16, U16, Octets(2)]) == [Field(28, 2), Field(30, 2)];
    assert HEADER_STRUCT == first + [Octets(12), U16, U16, Octets(2)];
    NumbersAppend(0, first, [Octets(12), U16, U16, Octets(2)]);
  }

  lemma HeaderStructReads(net: bool, b: seq<Byte>, c: seq<Byte>)
    requires 34 <= |b| == |c| && Size(HEADER_STRUCT) == 34 && Reads(net, b, c, 0, HEADER_STRUCT)
    ensures HeaderReads(net, b, c)
  {
    hide SameBytes, Get16, Get64;
    assert Reads(net, b, c, 0, [Octets(2), U16, Octets(4), U64, Octets(12), U16, U16, Octets(2)]);
  }

  /** The fields that are converted are just the integers of the structures, time stamps included when sending. */
  lemma BodyNumbers(kind: int)
    requires KnownType(kind)
    ensures BodyEnd(kind) == PduLength(kind) == 34 + Size(BodyStruct(kind, true))
    ensures Numbers(34, BodyStruct(kind, false)) == BodyFields(kind)
    ensures Numbers(34, BodyStruct(kind, true)) == TimestampFields(kind) + BodyFields(kind)
  {
    hide Numbers, Size, Layout;
    BodyParts();
    AnnounceNumbers();
    TimestampNumbers(34);
    NumbersAppend(34, [Octets(10)], [Octets(8), U16]);
    NumbersAppend(34, TIMESTAMP, [Octets(8), U16]);
  }

  lemma BodyParts()
    ensures Size([Octets(10)]) == 10 && Numbers(34, [Octets(10)]) == []
    ensures Size([Octets(20)]) == 20 && Numbers(34, [Octets(20)]) == []
    ensures Size([Octets(8), U16]) == 10
    ensures Numbers(34, [Octets(8), U16]) == [Field(42, 2)] && Numbers(44, [Octets(8), U16]) == [Field(52, 2)]
    ensures Size([Octets(8), U16, Octets(4)]) == 14 && Numbers(34, [Octets(8), U16, Octets(4)]) == [Field(42, 2)]
  {
  }

  lemma AnnounceNumbers()
    ensures Size([Octets(10), U16, Octets(4), U16, Octets(9), U16, Octets(1)]) == 30
    ensures Numbers(34, [Octets(10), U16, Octets(4), U16, Octets(9), U16, Octets(1)])
            == [Field(44, 2), Field(50, 2), Field(61, 2)]
  {
  }

  lemma BodyStructReads(net: bool, b: seq<Byte>, c: seq<Byte>, kind: int)
    requires KnownType(kind) && BodyEnd(kind) <= |b| == |c|
    requires BodyEnd(kind) == 34 + Size(BodyStruct(kind, !net)) && Reads(net, b, c, 34, BodyStruct(kind, !net))
    ensures BodyReads(net, b, c, kind)
  {
    hide Reads, Size, Numbers, Get16, Get32, SameBytes, TimestampReads;
    BodyParts();
    AnnounceNumbers();
    if kind in {SYNC, DELAY_REQ, PDELAY_REQ} {
      OctetsRead(net, b, c, 34, Size(BodyStruct(kind, false)));
    } else if kind == ANNOUNCE {
      AnnounceReads(net, b, c);
    } else if kind == SIGNALING {
      PortReads(net, b, c, 34);
    } else if kind == MANAGEMENT {
      ManagementReads(net, b, c);
    } else {
      TimedStructReads(net, b, c, kind);
    }
  }

  lemma TimedStructReads(net: bool, b: seq<Byte>, c: seq<Byte>, kind: int)
    requires kind in {FOLLOW_UP, DELAY_RESP, PDELAY_RESP, PDELAY_RESP_FOLLOW_UP} && BodyEnd(kind) <= |b| == |c|
    requires BodyEnd(kind) == 34 + Size(BodyStruct(kind, !net)) && Reads(net, b, c, 34, BodyStruct(kind, !net))
    ensures BodyReads(net, b, c, kind)
  {
    hide Reads, Size, Get16, Get32, SameBytes, TimestampReads;
    BodyParts();
    TimestampNumbers(34);
    var time := if net then [Octets(10)] else TIMESTAMP;
    assert Size(time) == 10;
    if kind == FOLLOW_UP {
      assert BodyStruct(kind, !net) == time;
    } else {
      assert BodyStruct(kind, !net) == time + [Octets(8), U16];
      ReadsAppend(net, b, c, 34, time, [Octets(8), U16]);
      PortReads(net, b, c, 44);
    }
    TimeReads(net, b, c);
  }

  lemma OctetsRead(net: bool, b: seq<Byte>, c: seq<Byte>, p: nat, n: nat)
    requires p + n <= |b| == |c| && Size([Octets(n)]) == n && Reads(net, b, c, p, [Octets(n)])
    ensures SameBytes(b, c, p, p + n)
  {
  }

  lemma PortReads(net: bool, b: seq<Byte>, c: seq<Byte>, p: nat)
    requires p + 10 <= |b| == |c| && Size([Octets(8), U16]) == 10 && Reads(net, b, c, p, [Octets(8), U16])
    ensures SameBytes(b, c, p, p + 8) && Get16(!net, c, p + 8) == Get16(net, b, p + 8)
  {
    hide SameBytes, Get16;
  }

  lemma ManagementReads(net: bool, b: seq<Byte>, c: seq<Byte>)
    requires 48 <= |b| == |c| && Size([Octets(8), U16, Octets(4)]) == 14
    requires Reads(net, b, c, 34, [Octets(8), U16, Octets(4)])
    ensures SameBytes(b, c, 34, 42) && Get16(!net, c, 42) == Get16(net, b, 42) && SameBytes(b, c, 44, 48)
  {
    hide SameBytes, Get16;
  }

  lemma TimeReads(net: bool, b: seq<Byte>, c: seq<Byte>)
    requires 44 <= |b| == |c| && Size([Octets(10)]) == Size(TIMESTAMP) == 10
    requires Reads(net, b, c, 34, if net then [Octets(10)] else TIMESTAMP)
    ensures TimestampReads(net, b, c)
  {
    hide SameBytes, Get16, Get32;
    if !net {
      assert Reads(net, b, c, 34, [U16, U32, U32]);
    }
  }

  lemma AnnounceReads(net: bool, b: seq<Byte>, c: seq<Byte>)
    requires 64 <= |b| == |c| && Size([Octets(10), U16, Octets(4), U16, Octets(9), U16, Octets(1)]) == 30
    requires Reads(net, b, c, 34, [Octets(10), U16, Octets(4), U16, Octets(9), U16, Octets(1)])
    ensures BodyEnd(ANNOUNCE) == 64 && BodyReads(net, b, c, ANNOUNCE)
  {
    hide Get16;
  }

  /** A suffix whose fields are converted reads as it did. */
  lemma {:induction false} SuffixFlipped(net: bool, b: seq<Byte>, c: seq<Byte>, o: nat, end: nat)
    requires o <= end <= |b| == |c| && SuffixWalk(net, b, o, end).Suffix?
    requires var s := SuffixWalk(net, b, o, end); Flipped(b, c, s.fields, o, s.stop) && SameBytes(b, c, s.stop, end)
    ensures SuffixReads(net, b, c, o, end)
    decreases end - o
  {
    hide Flipped, BodyWalk, Layout, Reads, ValueMembers;
    if end - o >= TLV_HEADER {
      var kind, length := Get16(net, b, o), Get16(net, b, o + 2);
      var next := o + TLV_HEADER + length;
      var w, rest := BodyWalk(net, b, o, kind, length), SuffixWalk(net, b, next, end);
      TlvLayout(o, w, next);
      LayoutJoin(TlvFields(o, w), rest.fields, o, next, rest.stop);
      FlippedTlv(net, b, c, o, w, next, rest.fields, rest.stop);
      ValueNumbers(net, b, o, kind, length);
      FlippedReads(net, b, c, o + TLV_HEADER, ValueMembers(net, b, o, kind, length));
      SuffixFlipped(net, b, c, next, end);
    }
  }

  lemma NothingFlipped(b: seq<Byte>, c: seq<Byte>, lo: nat, hi: nat)
    requires lo <= hi <= |b| == |c| && Layout([], lo, hi) && Flipped(b, c, [], lo, hi)
    ensures SameBytes(b, c, lo, hi)
  {
  }

  ghost function Converted(b: seq<Byte>, fs: seq<Field>): (c: seq<Byte>)
    requires Layout(fs, 0, |b|)
    ensures |c| == |b|
  {
    FlipAll(b, fs)
  }

  /** A structure at p whose integers are among the fields that are converted. */
  lemma PartReads(net: bool, b: seq<Byte>, before: seq<Field>, p: nat, ms: seq<Member>, after: seq<Field>)
    requires p + Size(ms) <= |b|
    requires Layout(before, 0, p) && Layout(after, p + Size(ms), |b|)
    ensures Layout(before + Numbers(p, ms) + after, 0, |b|)
    ensures Reads(net, b, Converted(b, before + Numbers(p, ms) + after), p, ms)
  {
    hide Flipped, Numbers, Reads;
    NumbersLayout(p, ms);
    FlipAllFlipped(b, before, Numbers(p, ms), after, p, p + Size(ms));
    FlippedReads(net, b, FlipAll(b, before + Numbers(p, ms) + after), p, ms);
  }

  lemma HeaderPartReads(net: bool, b: seq<Byte>, rest: seq<Field>)
    requires 34 <= |b| && Layout(rest, 34, |b|)
    ensures Layout(HEADER_FIELDS + rest, 0, |b|) && HeaderReads(net, b, Converted(b, HEADER_FIELDS + rest))
  {
    hide Layout, Numbers, Size, Converted, HeaderReads, Reads;
    HeaderNumbers();
    NoFields(0, 0);
    PartReads(net, b, [], 0, HEADER_STRUCT, rest);
    assert [] + HEADER_FIELDS + rest == HEADER_FIELDS + rest;
    HeaderStructReads(net, b, Converted(b, HEADER_FIELDS + rest));
  }

  lemma BodyPartReads(net: bool, b: seq<Byte>, kind: int, suffix: seq<Field>)
    requires KnownType(kind) && PduLength(kind) <= |b| && Layout(suffix, PduLength(kind), |b|)
    ensures BodyEnd(kind) == PduLength(kind)
    ensures var fs := HEADER_FIELDS + Numbers(34, BodyStruct(kind, !net)) + suffix;
            Layout(fs, 0, |b|) && BodyReads(net, b, Converted(b, fs), kind)
  {
    hide Layout, Numbers, Size, Converted, BodyReads, BodyStruct, PduLength, Reads;
    HeaderFieldsLayout();
    BodyNumbers(kind);
    PartReads(net, b, HEADER_FIELDS, 34, BodyStruct(kind, !net), suffix);
    BodyStructReads(net, b, Converted(b, HEADER_FIELDS + Numbers(34, BodyStruct(kind, !net)) + suffix), kind);
  }

  lemma HeaderFieldsLayout()
    ensures Layout(HEADER_FIELDS, 0, 34)
  {
  }

  lemma SuffixPartReads(net: bool, b: seq<Byte>, before: seq<Field>, o: nat, end: nat)
    requires o <= end <= |b| && SuffixWalk(net, b, o, end).Suffix? && Layout(before, 0, o)
    ensures var fs := before + SuffixWalk(net, b, o, end).fields;
            && Layout(fs, 0, |b|)
            && SuffixReads(net, b, Converted(b, fs), o, end) && SameBytes(b, Converted(b, fs), end, |b|)
  {
    hide Flipped, SuffixWalk, SuffixReads;
    var s := SuffixWalk(net, b, o, end);
    var fs := before + s.fields;
    NoFields(s.stop, |b|);
    assert fs == before + s.fields + [] == fs + [] + [];
    LayoutJoin(before, s.fields, 0, o, s.stop);
    FlipAllFlipped(b, before, s.fields, [], o, s.stop);
    FlipAllFlipped(b, fs, [], [], s.stop, |b|);
    NothingFlipped(b, FlipAll(b, fs), s.stop, |b|);
    SuffixFlipped(net, b, FlipAll(b, fs), o, end);
  }

  /** Header, body and suffix, each converted together with the others. */
  lemma PartsRead(net: bool, b: seq<Byte>, cnt: nat, body: seq<Field>, suffix: seq<Field>)
    requires 34 <= cnt <= |b| && KnownType(MsgType(b)) && PduLength(MsgType(b)) <= cnt
    requires SuffixWalk(net, b, PduLength(MsgType(b)), cnt).Suffix?
    requires suffix == SuffixWalk(net, b, PduLength(MsgType(b)), cnt).fields
    requires body == Numbers(34, BodyStruct(MsgType(b), !net))
    ensures Layout(HEADER_FIELDS + body + suffix, 0, |b|)
    ensures MessageReads(net, b, Converted(b, HEADER_FIELDS + body + suffix), cnt)
  {
    hide Layout, SuffixWalk, Numbers, Size, BodyStruct, PduLength, SuffixReads, BodyReads, HeaderReads, Converted;
    var kind, end := MsgType(b), PduLength(MsgType(b));
    var s := SuffixWalk(net, b, end, cnt);
    BodyNumbers(kind);
    NumbersLayout(34, BodyStruct(kind, !net));
    LayoutWiden(suffix, end, s.stop, end, |b|);
    BodyPartReads(net, b, kind, suffix);
    LayoutJoin(body, suffix, 34, end, |b|);
    HeaderPartReads(net, b, body + suffix);
    assert HEADER_FIELDS + (body + suffix) == HEADER_FIELDS + body + suffix;
    HeaderFieldsLayout();
    LayoutJoin(HEADER_FIELDS, body, 0, 34, end);
    SuffixPartReads(net, b, HEADER_FIELDS + body, end, cnt);
  }

  /** What receiving leaves of an accepted message. */
  lemma ReceivedReads(raw: seq<Byte>, cnt: nat)
    requires cnt <= |raw| && Examine(true, raw, cnt).Accepted?
    ensures Layout(Examine(true, raw, cnt).fields, 0, |raw|)
    ensures MessageReads(true, raw, Converted(raw, Examine(true, raw, cnt).fields), cnt)
  {
    hide MessageReads, Layout, FlipAll, BodyFields, BodyStruct, SuffixWalk, PduLength;
    var kind := MsgType(raw);
    BodyNumbers(kind);
    PartsRead(true, raw, cnt, BodyFields(kind), SuffixWalk(true, raw, PduLength(kind), cnt).fields);
  }

  lemma SentIsConverted(b: seq<Byte>, cnt: nat)
    requires cnt <= |b| && Examine(false, b, cnt).Accepted?
    ensures 34 <= cnt && KnownType(MsgType(b)) && PduLength(MsgType(b)) <= cnt
    ensures SuffixWalk(false, b, PduLength(MsgType(b)), cnt).Suffix?
    ensures var fs := SendFields(MsgType(b), SuffixWalk(false, b, PduLength(MsgType(b)), cnt).fields);
            Layout(fs, 0, |b|) && Sent(b, cnt) == Converted(b, fs)
  {
    hide Layout, FlipAll, TimestampFields, BodyFields, SuffixWalk, PduLength, SendFields;
    SendLayout(b, cnt);
  }

  /** What sending leaves of a well-formed one. */
  lemma SentReads(b: seq<Byte>, cnt: nat)
    requires cnt <= |b| && Examine(false, b, cnt).Accepted?
    ensures MessageReads(false, b, Sent(b, cnt), cnt)
  {
    hide MessageReads, Layout, Converted, Sent, Examine, TimestampFields, BodyFields, BodyStruct, SuffixWalk, PduLength;
    hide Numbers;
    SentIsConverted(b, cnt);
    var kind, s := MsgType(b), SuffixWalk(false, b, PduLength(MsgType(b)), cnt);
    BodyNumbers(kind);
    PartsRead(false, b, cnt, TimestampFields(kind) + BodyFields(kind), s.fields);
    assert SendFields(kind, s.fields) == HEADER_FIELDS + (TimestampFields(kind) + BodyFields(kind)) + s.fields;
  }
}
