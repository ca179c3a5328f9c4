/** Sending undoes receiving and receiving undoes sending, byte for byte (msg.c, and the use in monitor.c). */
module MsgRoundTrip {
  import opened Bytes
  import opened Tlv
  import opened MsgWalk

  /** Converting all fields and then all but some of them leaves just those converted. */
  lemma RestoreAllBut(b: seq<Byte>, before: seq<Field>, kept: seq<Field>, after: seq<Field>, lo: nat, hi: nat)
    requires lo <= hi <= |b| && Layout(before, 0, lo) && Layout(kept, lo, hi) && Layout(after, hi, |b|)
    ensures Layout(before + kept + after, 0, |b|) && Layout(before + after, 0, |b|)
    ensures FlipAll(FlipAll(b, before + kept + after), before + after) == FlipAll(b, kept)
  {
    LayoutJoin(before, kept, 0, lo, hi);
    LayoutJoin(before + kept, after, 0, hi, |b|);
    LayoutWiden(before, 0, lo, 0, hi);
    LayoutJoin(before, after, 0, hi, |b|);
    FlipAllAppend(b, before + kept, after);
    LayoutWiden(kept, lo, hi, lo, |b|);
    CommuteBlocks(b, before, kept, lo);
    FlipAllAppend(FlipAll(b, kept), before, after);
    FlipAllTwice(FlipAll(b, kept), before + after);
  }

  ghost function HostSuffix(b: seq<Byte>, cnt: nat): seq<Field>
    requires cnt <= |b| && Examine(false, b, cnt).Accepted?
  {
    SuffixWalk(false, b, PduLength(MsgType(b)), cnt).fields
  }

  /** The bytes msg_pre_send leaves for a well-formed host message. */
  ghost function Sent(b: seq<Byte>, cnt: nat): (c: seq<Byte>)
    requires cnt <= |b| && Examine(false, b, cnt).Accepted?
    ensures |c| == |b|
  {
    SendLayout(b, cnt);
    FlipAll(b, SendFields(MsgType(b), HostSuffix(b, cnt)))
  }

  lemma SendLayout(b: seq<Byte>, cnt: nat)
    requires cnt <= |b| && Examine(false, b, cnt).Accepted?
    ensures |b| >= 44 && Layout(SendFields(MsgType(b), HostSuffix(b, cnt)), 0, |b|)
  {
    var kind := MsgType(b);
    var s := SuffixWalk(false, b, PduLength(kind), cnt);
    FixedLayout(kind);
    LayoutJoin(HEADER_FIELDS + TimestampFields(kind) + BodyFields(kind), s.fields, 0, PduLength(kind), s.stop);
    LayoutWiden(SendFields(kind, s.fields), 0, s.stop, 0, |b|);
  }

  /** The receiver of a sent message reads the header, the length and the suffix that the sender wrote. */
  lemma SentIsExamined(b: seq<Byte>, cnt: nat)
    requires cnt <= |b| && Examine(false, b, cnt).Accepted?
    ensures Examine(true, Sent(b, cnt), cnt) == Examine(false, b, cnt)
  {
    hide Layout, FieldFlipped;
    var kind := MsgType(b);
    var s := SuffixWalk(false, b, PduLength(kind), cnt);
    var fixed := HEADER_FIELDS + TimestampFields(kind) + BodyFields(kind);
    var c := Sent(b, cnt);
    FixedLayout(kind);
    NoFields(s.stop, |b|);
    assert SendFields(kind, s.fields) == fixed + s.fields + [];
    FlipAllFlipped(b, fixed, s.fields, [], PduLength(kind), s.stop);
    SuffixSurvives(false, b, c, PduLength(kind), cnt);
    HeaderSurvives(b, SendFields(kind, s.fields));
  }

  lemma NoFields(lo: nat, hi: nat)
    requires lo <= hi
    ensures Layout([], lo, hi)
  {
  }

  lemma HeaderSurvives(b: seq<Byte>, fs: seq<Field>)
    requires |b| >= HEADER_LENGTH && Layout(fs, 0, |b|) && HEADER_FIELDS <= fs
    ensures var c := FlipAll(b, fs);
            c[0] == b[0] && c[1] == b[1] && forall net: bool :: Get16(!net, c, 2) == Get16(net, b, 2)
  {
    assert fs[0] == HEADER_FIELDS[0] == Field(2, 2);
    assert Free(fs, 0) && Free(fs, 1);
    FlipAllFree(b, fs, 0);
    FlipAllFree(b, fs, 1);
    FlipAllField(b, fs, 0);
    Get16Flipped(b, FlipAll(b, fs), fs[0]);
  }

  /**
   * Sending and then receiving a well-formed host message succeeds, finds the same TLVs, and restores every byte,
   * except that the body timestamp of four message types stays in network order and reappears in ts.pdu instead.
   */
  lemma SendThenReceive(b: seq<Byte>, cnt: nat)
    requires cnt <= |b| && Examine(false, b, cnt).Accepted?
    ensures var kind, c, received := MsgType(b), Sent(b, cnt), Examine(true, Sent(b, cnt), cnt);
            && received == Examine(false, b, cnt)
            && FlipAll(c, received.fields) == FlipAll(b, TimestampFields(kind))
            && (TimestampFields(kind) != [] ==> WireTimestamp(c) == BodyTimestamp(b))
  {
    hide FieldFlipped, SuffixWalk;
    SentIsExamined(b, cnt);
    var kind, s := MsgType(b), HostSuffix(b, cnt);
    assert Examine(false, b, cnt).fields == HEADER_FIELDS + (BodyFields(kind) + s);
    SentBytes(b, cnt, kind, s);
  }

  lemma SentBytes(b: seq<Byte>, cnt: nat, kind: int, s: seq<Field>)
    requires cnt <= |b| && Examine(false, b, cnt).Accepted? && kind == MsgType(b) && s == HostSuffix(b, cnt)
    ensures Layout(HEADER_FIELDS + (BodyFields(kind) + s), 0, |b|)
    ensures FlipAll(Sent(b, cnt), HEADER_FIELDS + (BodyFields(kind) + s)) == FlipAll(b, TimestampFields(kind))
    ensures TimestampFields(kind) != [] ==> WireTimestamp(Sent(b, cnt)) == BodyTimestamp(b)
  {
    hide HostSuffix, Layout, FieldFlipped;
    SendLayout(b, cnt);
    BodyLayout(b, cnt, kind);
    var fs := SendFields(kind, s);
    assert fs == HEADER_FIELDS + TimestampFields(kind) + (BodyFields(kind) + s);
    RestoreAllBut(b, HEADER_FIELDS, TimestampFields(kind), BodyFields(kind) + s, 34,
                  if TimestampFields(kind) == [] then 34 else 44);
    if TimestampFields(kind) != [] {
      TimestampSurvives(b, fs);
    }
  }

  lemma BodyLayout(b: seq<Byte>, cnt: nat, kind: int)
    requires cnt <= |b| && Examine(false, b, cnt).Accepted? && kind == MsgType(b)
    ensures Layout(HEADER_FIELDS, 0, 34)
    ensures var mid := if TimestampFields(kind) == [] then 34 else 44;
            Layout(TimestampFields(kind), 34, mid) && Layout(BodyFields(kind) + HostSuffix(b, cnt), mid, |b|)
  {
    var mid := if TimestampFields(kind) == [] then 34 else 44;
    var s := SuffixWalk(false, b, PduLength(kind), cnt);
    LayoutJoin(BodyFields(kind), s.fields, mid, PduLength(kind), s.stop);
    LayoutWiden(BodyFields(kind) + s.fields, mid, s.stop, mid, |b|);
  }

  lemma TimestampSurvives(b: seq<Byte>, fs: seq<Field>)
    requires |b| >= 44 && Layout(fs, 0, |b|) && |fs| >= 7
    requires fs[4] == Field(34, 2) && fs[5] == Field(36, 4) && fs[6] == Field(40, 4)
    ensures WireTimestamp(FlipAll(b, fs)) == BodyTimestamp(b)
  {
    var c := FlipAll(b, fs);
    FlipAllField(b, fs, 4);
    FlipAllField(b, fs, 5);
    FlipAllField(b, fs, 6);
    Get16Flipped(b, c, fs[4]);
    Get32Flipped(b, c, fs[5]);
    Get32Flipped(b, c, fs[6]);
  }

  /**
   * What msg_post_recv accepts is a well-formed host message: its descriptors tile the suffix from the end of the
   * fixed part up to messageLength, within the received bytes, and its fields can be converted back.
   */
  lemma ReceivedIsWellFormed(c: seq<Byte>, cnt: nat)
    requires cnt <= |c| && Examine(true, c, cnt).Accepted?
    ensures var m, b := Examine(true, c, cnt), FlipAll(c, Examine(true, c, cnt).fields);
            && Examine(false, b, cnt) == m
            && Get16(false, b, 2) == Get16(true, c, 2) <= cnt
            && Tiles(b, m.tlvs, PduLength(m.kind), Get16(false, b, 2))
            && Layout(m.fields, 0, |b|) && FlipAll(b, m.fields) == c
  {
    hide FieldFlipped;
    var m := Examine(true, c, cnt);
    var s := SuffixWalk(true, c, PduLength(m.kind), cnt);
    var fixed := HEADER_FIELDS + BodyFields(m.kind);
    var b := FlipAll(c, m.fields);
    FixedLayout(m.kind);
    NoFields(s.stop, |c|);
    LayoutWiden(m.fields, 0, cnt, 0, |c|);
    assert m.fields == fixed + s.fields + [];
    FlipAllFlipped(c, fixed, s.fields, [], PduLength(m.kind), s.stop);
    SuffixSurvives(true, c, b, PduLength(m.kind), cnt);
    HeaderSurvives(c, m.fields);
    SuffixTiles(b, PduLength(m.kind), cnt);
    FlipAllTwice(c, m.fields);
  }
}
