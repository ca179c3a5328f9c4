/** Messages in their buffer (msg.c): msg_post_recv and msg_pre_send, and monitor_forward which relies on both. */
module Msg {
  import opened Bytes
  import opened Tlv
  import opened TlvSurvival
  import opened TlvInPlace
  import opened MsgWalk
  import opened MsgRoundTrip
  import opened MsgMembers
  import opened Tmv

  lemma FlippedBelow(b: seq<Byte>, fs: seq<Field>, mid: nat, end: nat)
    requires Layout(fs, 0, mid) && mid <= end <= |b|
    ensures SameBytes(b, FlipAll(b, fs), mid, end)
  {
    forall i | mid <= i < end
      ensures b[i] == FlipAll(b, fs)[i]
    {
      assert Free(fs, i);
      FlipAllFree(b, fs, i);
    }
  }

  lemma {:induction false} SuffixLocal(net: bool, b: seq<Byte>, c: seq<Byte>, o: nat, end: nat)
    requires o <= end <= |b| == |c| && SameBytes(b, c, o, end)
    ensures SuffixWalk(net, c, o, end) == SuffixWalk(net, b, o, end)
    decreases end - o
  {
    hide BodyWalk, Layout;
    if end - o >= TLV_HEADER {
      var kind, length := Get16(net, b, o), Get16(net, b, o + 2);
      assert Get16(net, c, o) == kind && Get16(net, c, o + 2) == length;
      var next := o + TLV_HEADER + length;
      if length % 2 == 0 && next <= end {
        BodyLocal(net, b, c, o, kind, length);
        SuffixLocal(net, b, c, next, end);
      }
    }
  }

  function HeaderOf(o: nat): seq<Field> { [Field(o, 2), Field(o + 2, 2)] }

  /** Converting type and length of a TLV: both read in the other byte order, the value is as before. */
  lemma TlvHeaderStep(net: bool, b: seq<Byte>, o: nat, end: nat)
    requires o + TLV_HEADER <= end <= |b|
    ensures Layout(HeaderOf(o), o, o + TLV_HEADER)
    ensures var c := FlipAll(b, HeaderOf(o));
            && Get16(!net, c, o) == Get16(net, b, o) && Get16(!net, c, o + 2) == Get16(net, b, o + 2)
            && SameBytes(b, c, o + TLV_HEADER, end)
  {
    HeaderLayout(o);
    LayoutWiden(HeaderOf(o), o, o + TLV_HEADER, 0, |b|);
    LayoutWiden(HeaderOf(o), o, o + TLV_HEADER, 0, o + TLV_HEADER);
    ConvertedRead(b, HeaderOf(o), 0);
    ConvertedRead(b, HeaderOf(o), 1);
    FlippedBelow(b, HeaderOf(o), o + TLV_HEADER, end);
  }

  /** One TLV of a suffix: converting it leaves the rest of the walk, and of the conversion, as it was. */
  lemma TlvStep(net: bool, b: seq<Byte>, o: nat, end: nat)
    requires o + TLV_HEADER <= end <= |b|
    requires var length := Get16(net, b, o + 2);
             length % 2 == 0 && o + TLV_HEADER + length <= end && BodyWalk(net, b, o, Get16(net, b, o), length).Walk?
    ensures var w, next := BodyWalk(net, b, o, Get16(net, b, o), Get16(net, b, o + 2)), o + 4 + Get16(net, b, o + 2);
            && Layout(TlvFields(o, w), 0, next)
            && var c, full := FlipAll(b, TlvFields(o, w)), SuffixWalk(net, b, o, end);
               var rest := SuffixWalk(net, c, next, end);
               && full.Suffix? == rest.Suffix?
               && (full.Suffix? ==> && full.stop == rest.stop && full.tlvs == [Descriptor(o, w.extra)] + rest.tlvs
                                    && Layout(full.fields, o, end) && Layout(rest.fields, next, end)
                                    && FlipAll(b, full.fields) == FlipAll(c, rest.fields))
  {
    hide FlipAll, BodyWalk;
    var w, next := BodyWalk(net, b, o, Get16(net, b, o), Get16(net, b, o + 2)), o + 4 + Get16(net, b, o + 2);
    TlvLayout(o, w, next);
    LayoutWiden(TlvFields(o, w), o, next, 0, next);
    FlippedBelow(b, TlvFields(o, w), next, end);
    SuffixLocal(net, b, FlipAll(b, TlvFields(o, w)), next, end);
    var rest := SuffixWalk(net, b, next, end);
    if rest.Suffix? {
      FlipAllAppend(b, TlvFields(o, w), rest.fields);
    }
  }

  /** hdr_post_recv: the message length reads in the other byte order, type, version and body are as before. */
  lemma HeaderStep(net: bool, raw: seq<Byte>)
    requires |raw| >= HEADER_LENGTH
    ensures Layout(HEADER_FIELDS, 0, |raw|)
    ensures var c := FlipAll(raw, HEADER_FIELDS);
            && c[0] == raw[0] && c[1] == raw[1] && Get16(!net, c, 2) == Get16(net, raw, 2)
            && SameBytes(raw, c, HEADER_LENGTH, |raw|)
  {
    HeaderSurvives(raw, HEADER_FIELDS);
    FlippedBelow(raw, HEADER_FIELDS, HEADER_LENGTH, |raw|);
  }

  lemma SameTimestamp(b: seq<Byte>, c: seq<Byte>)
    requires 44 <= |b| == |c| && SameBytes(b, c, 34, |b|)
    ensures WireTimestamp(b) == WireTimestamp(c)
  {
  }

  /** Header and body fields, converted one group after the other; the suffix is untouched. */
  lemma FixedStep(raw: seq<Byte>, kind: int)
    requires PduLength(kind) <= |raw|
    ensures var fixed, c := HEADER_FIELDS + BodyFields(kind), FlipAll(raw, HEADER_FIELDS);
            && Layout(fixed, 0, |raw|) && Layout(BodyFields(kind), 0, |raw|)
            && FlipAll(c, BodyFields(kind)) == FlipAll(raw, fixed)
            && SameBytes(raw, FlipAll(raw, fixed), PduLength(kind), |raw|)
            && Get16(false, FlipAll(raw, fixed), 2) == Get16(true, raw, 2)
  {
    hide FieldFlipped, BodyFields, PduLength, FlipAll;
    var fixed := HEADER_FIELDS + BodyFields(kind);
    FixedLayout(kind);
    LayoutWiden(fixed, 0, PduLength(kind), 0, |raw|);
    FlippedBelow(raw, fixed, PduLength(kind), |raw|);
    HeaderSurvives(raw, fixed);
    FlipAllAppend(raw, HEADER_FIELDS, BodyFields(kind));
  }

  lemma SameWithin(b: seq<Byte>, c: seq<Byte>, lo: nat, end: nat, hi: nat)
    requires lo <= hi <= end <= |b| == |c| && SameBytes(b, c, lo, end)
    ensures SameBytes(b, c, lo, hi)
  {
  }

  /** The suffix is converted on top of the fixed part, which it leaves alone. */
  lemma SuffixStep(raw: seq<Byte>, kind: int, cnt: nat)
    requires PduLength(kind) <= cnt <= |raw| && SuffixWalk(true, raw, PduLength(kind), cnt).Suffix?
    ensures var fixed, fs := HEADER_FIELDS + BodyFields(kind), SuffixWalk(true, raw, PduLength(kind), cnt).fields;
            && Layout(fixed, 0, |raw|) && Layout(fs, 0, |raw|) && Layout(fixed + fs, 0, |raw|)
            && FlipAll(FlipAll(raw, fixed), fs) == FlipAll(raw, fixed + fs)
            && Get16(false, FlipAll(raw, fixed + fs), 2) == Get16(true, raw, 2)
  {
    hide FieldFlipped, SuffixWalk, BodyFields, PduLength, FlipAll;
    var s := SuffixWalk(true, raw, PduLength(kind), cnt);
    var fixed := HEADER_FIELDS + BodyFields(kind);
    FixedLayout(kind);
    LayoutJoin(fixed, s.fields, 0, PduLength(kind), s.stop);
    LayoutWiden(fixed + s.fields, 0, s.stop, 0, |raw|);
    LayoutWiden(fixed, 0, PduLength(kind), 0, |raw|);
    LayoutWiden(s.fields, PduLength(kind), s.stop, 0, |raw|);
    FlipAllAppend(raw, fixed, s.fields);
    HeaderSurvives(raw, fixed + s.fields);
  }

  lemma ValueFirst(b: seq<Byte>, o: nat, fs: seq<Field>, next: nat)
    requires Layout(fs, o + TLV_HEADER, next) && o + TLV_HEADER <= next <= |b|
    ensures FlipAll(b, HeaderOf(o) + fs) == Flip(Flip(FlipAll(b, fs), Field(o, 2)), Field(o + 2, 2))
  {
    HeaderLayout(o);
    LayoutWiden(HeaderOf(o), o, o + TLV_HEADER, 0, o + TLV_HEADER);
    LayoutWiden(fs, o + TLV_HEADER, next, o + TLV_HEADER, |b|);
    CommuteBlocks(b, HeaderOf(o), fs, o + TLV_HEADER);
    FlipOne(Flip(FlipAll(b, fs), Field(o, 2)), Field(o + 2, 2));
    assert HeaderOf(o)[1..] == [Field(o + 2, 2)];
  }

  lemma SuffixFits(net: bool, b: seq<Byte>, o: nat, cnt: nat)
    requires o <= cnt <= |b|
    ensures var s := SuffixWalk(net, b, o, cnt);
            s.Suffix? ==> forall k :: 0 <= k < |s.fields| ==> s.fields[k].off + s.fields[k].len <= |b|
  {
  }

  /** While a suffix is converted: what is left to do at ptr completes what has been done so far. */
  ghost predicate RestOf(net: bool, b: seq<Byte>, ptr: nat, cnt: nat, first: seq<Byte>, full: Suffix, done: seq<Descriptor>)
    requires ptr <= cnt <= |b|
    requires full.Suffix? ==> forall k :: 0 <= k < |full.fields| ==> full.fields[k].off + full.fields[k].len <= |first|
  {
    SuffixFits(net, b, ptr, cnt);
    var rest := SuffixWalk(net, b, ptr, cnt);
    && full.Suffix? == rest.Suffix?
    && (full.Suffix? ==> && full.stop == rest.stop && full.tlvs == done + rest.tlvs
                         && FlipAll(first, full.fields) == FlipAll(b, rest.fields))
  }

  /** Sending: header, timestamp and body come first, and the suffix is still in host order after them. */
  lemma SendStep(b: seq<Byte>, cnt: nat, kind: int)
    requires cnt <= |b| && Examine(false, b, cnt).Accepted? && kind == MsgType(b)
    ensures HEADER_LENGTH <= |b| && PduLength(kind) <= cnt
    ensures Layout(HEADER_FIELDS, 0, |b|) && Layout(TimestampFields(kind), 0, |b|) && Layout(BodyFields(kind), 0, |b|)
    ensures var s := SuffixWalk(false, b, PduLength(kind), cnt);
            var c := FlipAll(FlipAll(FlipAll(b, HEADER_FIELDS), TimestampFields(kind)), BodyFields(kind));
            && s.Suffix? && s.tlvs == Examine(false, b, cnt).tlvs && Layout(s.fields, 0, |b|)
            && SuffixWalk(false, c, PduLength(kind), cnt) == s
            && FlipAll(c, s.fields) == Sent(b, cnt)
  {
    hide FieldFlipped, SuffixWalk, BodyFields, TimestampFields, PduLength, FlipAll;
    var s := SuffixWalk(false, b, PduLength(kind), cnt);
    var head, fixed := HEADER_FIELDS + TimestampFields(kind), HEADER_FIELDS + TimestampFields(kind) + BodyFields(kind);
    FixedLayout(kind);
    LayoutWiden(fixed, 0, PduLength(kind), 0, |b|);
    FlippedBelow(b, fixed, PduLength(kind), |b|);
    SameWithin(b, FlipAll(b, fixed), PduLength(kind), |b|, cnt);
    SuffixLocal(false, b, FlipAll(b, fixed), PduLength(kind), cnt);
    FlipAllAppend(b, HEADER_FIELDS, TimestampFields(kind));
    FlipAllAppend(b, head, BodyFields(kind));
    SuffixFits(false, b, PduLength(kind), cnt);
    LayoutWiden(s.fields, PduLength(kind), s.stop, 0, |b|);
    FlipAllAppend(b, fixed, s.fields);
  }

  function Set16(b: seq<Byte>, o: nat, v: int): (c: seq<Byte>)
    requires o + 2 <= |b| && 0 <= v < 0x1_0000
    ensures |c| == |b| && Get16(false, c, o) == v
    ensures forall i :: 0 <= i < |b| && i != o && i != o + 1 ==> c[i] == b[i]
  {
    b[o := v % 256][o + 1 := v / 256]
  }

  lemma RestStart(net: bool, b: seq<Byte>, o: nat, cnt: nat)
    requires o <= cnt <= |b|
    ensures var full := SuffixWalk(net, b, o, cnt);
            && (full.Suffix? ==> forall k :: 0 <= k < |full.fields| ==> full.fields[k].off + full.fields[k].len <= |b|)
            && RestOf(net, b, o, cnt, b, full, [])
  {
  }

  /** A TLV that is refused is one that the whole suffix fails for. */
  lemma RestBad(b: seq<Byte>, ptr: nat, cnt: nat, first: seq<Byte>, full: Suffix, done: seq<Descriptor>)
    requires ptr + TLV_HEADER <= cnt <= |b|
    requires full.Suffix? ==> forall k :: 0 <= k < |full.fields| ==> full.fields[k].off + full.fields[k].len <= |first|
    requires RestOf(true, b, ptr, cnt, first, full, done)
    requires var length := Get16(true, b, ptr + 2);
             !(&& length % 2 == 0 && ptr + TLV_HEADER + length <= cnt
               && BodyWalk(true, b, ptr, Get16(true, b, ptr), length).Walk?)
    ensures full.BadSuffix?
  {
  }

  /** One TLV later the same holds. */
  lemma RestStep(net: bool, b: seq<Byte>, ptr: nat, cnt: nat, first: seq<Byte>, full: Suffix, done: seq<Descriptor>)
    requires ptr + TLV_HEADER <= cnt <= |b|
    requires full.Suffix? ==> forall k :: 0 <= k < |full.fields| ==> full.fields[k].off + full.fields[k].len <= |first|
    requires RestOf(net, b, ptr, cnt, first, full, done)
    requires var length := Get16(net, b, ptr + 2);
             && length % 2 == 0 && ptr + TLV_HEADER + length <= cnt
             && BodyWalk(net, b, ptr, Get16(net, b, ptr), length).Walk?
    ensures var length := Get16(net, b, ptr + 2);
            var w := BodyWalk(net, b, ptr, Get16(net, b, ptr), length);
            && Layout(TlvFields(ptr, w), 0, ptr + TLV_HEADER + length)
            && RestOf(net, FlipAll(b, TlvFields(ptr, w)), ptr + TLV_HEADER + length, cnt, first, full,
                      done + [Descriptor(ptr, w.extra)])
  {
    hide FlipAll, BodyWalk, Layout, SuffixWalk, TlvFields;
    var length := Get16(net, b, ptr + 2);
    var fs := TlvFields(ptr, BodyWalk(net, b, ptr, Get16(net, b, ptr), length));
    TlvStep(net, b, ptr, cnt);
    LayoutFits(fs, 0, ptr + TLV_HEADER + length, |b|);
    SuffixFits(net, b, ptr, cnt);
    SuffixFits(net, FlipAll(b, fs), ptr + TLV_HEADER + length, cnt);
  }

  lemma RestEnd(net: bool, b: seq<Byte>, ptr: nat, cnt: nat, first: seq<Byte>, full: Suffix, done: seq<Descriptor>)
    requires ptr <= cnt <= |b| && cnt < ptr + TLV_HEADER
    requires full.Suffix? ==> forall k :: 0 <= k < |full.fields| ==> full.fields[k].off + full.fields[k].len <= |first|
    requires RestOf(net, b, ptr, cnt, first, full, done)
    ensures full.Suffix? && full.stop == ptr && full.tlvs == done && b == FlipAll(first, full.fields)
  {
  }

  /** The next attached descriptor is that of the next TLV in the buffer. */
  lemma RestHead(b: seq<Byte>, ptr: nat, cnt: nat, first: seq<Byte>, full: Suffix, tlvs: seq<Descriptor>, i: nat)
    requires ptr <= cnt <= |b| && full.Suffix? && full.tlvs == tlvs && i < |tlvs|
    requires forall k :: 0 <= k < |full.fields| ==> full.fields[k].off + full.fields[k].len <= |first|
    requires RestOf(false, b, ptr, cnt, first, full, tlvs[..i])
    ensures ptr + TLV_HEADER <= cnt
    ensures var length := Get16(false, b, ptr + 2);
            && length % 2 == 0 && ptr + TLV_HEADER + length <= cnt
            && var w := BodyWalk(false, b, ptr, Get16(false, b, ptr), length);
               w.Walk? && tlvs[i] == Descriptor(ptr, w.extra)
  {
  }

  lemma RestNone(b: seq<Byte>, ptr: nat, cnt: nat, first: seq<Byte>, full: Suffix, done: seq<Descriptor>)
    requires ptr <= cnt <= |b| && full.Suffix? && full.tlvs == done
    requires forall k :: 0 <= k < |full.fields| ==> full.fields[k].off + full.fields[k].len <= |first|
    requires RestOf(false, b, ptr, cnt, first, full, done)
    ensures cnt < ptr + TLV_HEADER
  {
  }

  /** Descriptors that tile a stretch end with the last of them. */
  lemma {:induction false} LastTile(b: seq<Byte>, tlvs: seq<Descriptor>, o: nat, stop: nat)
    requires tlvs != [] && Tiles(b, tlvs, o, stop)
    ensures var last := tlvs[|tlvs| - 1].off;
            o <= last && last + TLV_HEADER <= |b| && last + TLV_HEADER + Get16(false, b, last + 2) == stop
    decreases tlvs
  {
    if |tlvs| > 1 {
      LastTile(b, tlvs[1..], o + TLV_HEADER + Get16(false, b, o + 2), stop);
    }
  }

  lemma FirstTile(b: seq<Byte>, c: seq<Byte>, tlvs: seq<Descriptor>, o: nat, stop: nat)
    requires tlvs != [] && Tiles(b, tlvs, o, stop) && o <= stop <= |b| == |c| && SameBytes(b, c, o, stop)
    ensures o + TLV_HEADER <= stop && Get16(false, c, o + 2) == Get16(false, b, o + 2)
    ensures var next := o + TLV_HEADER + Get16(false, b, o + 2);
            && next <= stop && Get16(false, b, o + 2) % 2 == 0 && tlvs[0].off == o
            && Tiles(b, tlvs[1..], next, stop)
  {
  }

  lemma TileInFront(c: seq<Byte>, tlvs: seq<Descriptor>, o: nat, stop: nat)
    requires tlvs != [] && tlvs[0].off == o && o + TLV_HEADER <= stop <= |c|
    requires var next := o + TLV_HEADER + Get16(false, c, o + 2);
             next <= stop && Get16(false, c, o + 2) % 2 == 0 && Tiles(c, tlvs[1..], next, stop)
    ensures Tiles(c, tlvs, o, stop)
  {
  }

  /** Once its length is filled in, an appended TLV continues the tiling up to the raised message length. */
  lemma {:induction false} AppendedTile(b: seq<Byte>, c: seq<Byte>, tlvs: seq<Descriptor>, o: nat, stop: nat, extra: Extra, length: nat)
    requires Tiles(b, tlvs, o, stop) && o <= stop && stop + length <= |b| == |c| && SameBytes(b, c, o, stop)
    requires length >= TLV_HEADER && length % 2 == 0 && Get16(false, c, stop + 2) == length - TLV_HEADER
    ensures Tiles(c, tlvs + [Descriptor(stop, extra)], o, stop + length)
    decreases tlvs
  {
    hide Tiles, Get16;
    var all := tlvs + [Descriptor(stop, extra)];
    if tlvs == [] {
      NoTile(b, c, o, stop, stop + length);
      assert all[1..] == [];
    } else {
      FirstTile(b, c, tlvs, o, stop);
      AppendedTile(b, c, tlvs[1..], o + TLV_HEADER + Get16(false, b, o + 2), stop, extra, length);
      assert all[1..] == tlvs[1..] + [Descriptor(stop, extra)];
    }
    TileInFront(c, all, o, stop + length);
  }

  lemma NoTile(b: seq<Byte>, c: seq<Byte>, o: nat, stop: nat, end: nat)
    ensures Tiles(b, [], o, stop) ==> o == stop
    ensures Tiles(c, [], end, end)
  {
  }

  /** The body time stamp of the types that carry the time of an event or of an origin; others leave it alone. */
  function PduTime(kind: int, raw: seq<Byte>, before: HostTimestamp): HostTimestamp
    requires |raw| >= 44
  {
    if kind in {SYNC, PDELAY_RESP, FOLLOW_UP, DELAY_RESP, PDELAY_RESP_FOLLOW_UP, ANNOUNCE} then
      HostTimestamp(Get16(true, raw, 34) * 0x1_0000_0000 + Get32(true, raw, 36), Get32(true, raw, 40))
    else before
  }

  /** Only the header is converted. */
  ghost predicate HeaderConverted(raw: seq<Byte>, b: seq<Byte>) {
    |raw| >= HEADER_LENGTH && b == FlipAll(raw, HEADER_FIELDS)
  }

  datatype Status = Success | Failure(err: Errno)

  class PtpMessage {
    const data: array<Byte>
    var tlvs: seq<Descriptor>
    var pdu: HostTimestamp

    constructor (bytes: seq<Byte>)
      ensures data[..] == bytes && tlvs == [] && fresh(data)
    {
      data := new Byte[|bytes|](i requires 0 <= i < |bytes| => bytes[i]);
      tlvs, pdu := [], HostTimestamp(0, 0);
    }

    /** Converts the TLV at ptr, header first, and tells its length; refuses one that is odd, too long or malformed. */
    method OnePostRecv(ptr: nat, cnt: nat) returns (ok: bool, length: nat, extra: Extra)
      requires ptr + TLV_HEADER <= cnt <= data.Length
      modifies data
      ensures var b := old(data[..]);
              var n := Get16(true, b, ptr + 2);
              && length == n
              && (ok <==> && n % 2 == 0 && ptr + TLV_HEADER + n <= cnt
                          && BodyWalk(true, b, ptr, Get16(true, b, ptr), n).Walk?)
              && (ok ==> var w := BodyWalk(true, b, ptr, Get16(true, b, ptr), n);
                         extra == w.extra && data[..] == FlipAll(b, TlvFields(ptr, w)))
    {
      hide FlipAll, BodyWalk;
      ghost var b := data[..];
      extra := NoExtra;
      TlvHeaderStep(true, b, ptr, cnt);
      FlipAllInPlace(data, HeaderOf(ptr));
      var kind := Get16(false, data[..], ptr);
      length := Get16(false, data[..], ptr + 2);
      ok := length % 2 == 0 && length <= cnt - ptr - TLV_HEADER;
      if ok {
        SameWithin(b, data[..], ptr + TLV_HEADER, cnt, ptr + TLV_HEADER + length);
        BodyLocal(true, b, data[..], ptr, kind, length);
        ok, extra := TlvPostRecv(data, ptr, kind, length);
        if ok {
          ghost var fs := BodyWalk(true, b, ptr, kind, length).fields;
          LayoutFits(fs, ptr + TLV_HEADER, ptr + TLV_HEADER + length, |b|);
          FlipAllAppend(b, HeaderOf(ptr), fs);
        }
      }
    }

    /** Converts and attaches the TLVs of a suffix; the result is where it stopped, or -1 for a bad message. */
    method SuffixPostRecv(o: nat, cnt: nat) returns (stop: int)
      requires o <= cnt <= data.Length
      modifies this`tlvs, data
      ensures var s := SuffixWalk(true, old(data[..]), o, cnt);
              && (s.BadSuffix? ==> stop == -1)
              && (s.Suffix? ==> stop == s.stop && tlvs == s.tlvs && data[..] == FlipAll(old(data[..]), s.fields))
    {
      hide FlipAll, BodyWalk, Layout, RestOf, SuffixWalk;
      ghost var first, full := data[..], SuffixWalk(true, data[..], o, cnt);
      RestStart(true, first, o, cnt);
      tlvs := [];
      var ptr := o;
      while cnt - ptr >= TLV_HEADER
        invariant o <= ptr <= cnt
        invariant RestOf(true, data[..], ptr, cnt, first, full, tlvs)
        decreases cnt - ptr
      {
        ghost var b := data[..];
        var ok, length, extra := OnePostRecv(ptr, cnt);
        if !ok {
          RestBad(b, ptr, cnt, first, full, tlvs);
          return -1;
        }
        RestStep(true, b, ptr, cnt, first, full, tlvs);
        tlvs := tlvs + [Descriptor(ptr, extra)];
        ptr := ptr + TLV_HEADER + length;
      }
      RestEnd(true, data[..], ptr, cnt, first, full, tlvs);
      return ptr;
    }

    /** Converts the attached TLVs to network order, each value before its own type and length. */
    method SuffixPreSend(ghost o: nat, ghost cnt: nat)
      requires o <= cnt <= data.Length
      requires var s := SuffixWalk(false, data[..], o, cnt); s.Suffix? && s.tlvs == tlvs
      modifies data
      ensures data[..] == FlipAll(old(data[..]), SuffixWalk(false, old(data[..]), o, cnt).fields)
    {
      hide FlipAll, BodyWalk, Layout, RestOf, SuffixWalk;
      ghost var first, full := data[..], SuffixWalk(false, data[..], o, cnt);
      RestStart(false, first, o, cnt);
      ghost var ptr := o;
      var i := 0;
      assert tlvs[..0] == [];
      while i < |tlvs|
        invariant 0 <= i <= |tlvs| && o <= ptr <= cnt
        invariant RestOf(false, data[..], ptr, cnt, first, full, tlvs[..i])
      {
        ghost var b := data[..];
        RestHead(b, ptr, cnt, first, full, tlvs, i);
        RestStep(false, b, ptr, cnt, first, full, tlvs[..i]);
        var tlv := tlvs[i].off;
        var kind, length := Get16(false, data[..], tlv), Get16(false, data[..], tlv + 2);
        TlvPreSend(data, tlv, kind, length, tlvs[i].extra);
        FlipInPlace(data, Field(tlv, 2));
        FlipInPlace(data, Field(tlv + 2, 2));
        ValueFirst(b, tlv, BodyWalk(false, b, tlv, kind, length).fields, tlv + TLV_HEADER + length);
        assert tlvs[..i + 1] == tlvs[..i] + [tlvs[i]];
        ptr := ptr + TLV_HEADER + length;
        i := i + 1;
      }
      assert tlvs[..i] == tlvs;
      RestNone(data[..], ptr, cnt, first, full, tlvs);
      RestEnd(false, data[..], ptr, cnt, first, full, tlvs);
    }

    method PostRecv(cnt: nat) returns (status: Status)
      requires cnt <= data.Length
      modifies this, data
      ensures var m := Examine(true, old(data[..]), cnt);
              && (m.Refused? ==> status == Failure(m.err))
              && (m.Accepted? ==> && status == Success && tlvs == m.tlvs
                                  && data[..] == FlipAll(old(data[..]), m.fields)
                                  && MessageReads(true, old(data[..]), data[..], cnt)
                                  && pdu == PduTime(m.kind, old(data[..]), old(pdu)))
      ensures cnt < HEADER_LENGTH || old(data[1]) as int % 16 != PTP_MAJOR_VERSION ==>
                && tlvs == old(tlvs) && data[..] == old(data[..])
                && status == Failure(if cnt < HEADER_LENGTH then EBADMSG else EPROTO)
      ensures cnt >= HEADER_LENGTH && old(data[1]) as int % 16 == PTP_MAJOR_VERSION
              && (!KnownType(MsgType(old(data[..]))) || cnt < PduLength(MsgType(old(data[..])))) ==>
                && tlvs == old(tlvs) && HeaderConverted(old(data[..]), data[..])
                && status == Failure(EBADMSG)
    {
      hide FlipAll, SuffixWalk, BodyFields, MessageReads;
      if cnt < HEADER_LENGTH {
        return Failure(EBADMSG);
      }
      if data[1] as int % 16 != PTP_MAJOR_VERSION {
        return Failure(EPROTO);
      }
      ghost var raw := data[..];
      HeaderStep(true, raw);
      FlipAllInPlace(data, HEADER_FIELDS);
      var kind := data[0] as int % 16;
      if !KnownType(kind) || cnt < PduLength(kind) {
        return Failure(EBADMSG);
      }
      SameTimestamp(raw, data[..]);
      if kind == SYNC || kind == ANNOUNCE || TimestampFields(kind) != [] {
        pdu := WireTimestamp(data[..]);
      }
      FixedStep(raw, kind);
      FlipAllInPlace(data, BodyFields(kind));
      SameWithin(raw, data[..], PduLength(kind), |raw|, cnt);
      SuffixLocal(true, raw, data[..], PduLength(kind), cnt);
      var stop := SuffixPostRecv(PduLength(kind), cnt);
      if stop >= 0 {
        SuffixStep(raw, kind, cnt);
      }
      if stop < 0 || stop != Get16(false, data[..], 2) {
        return Failure(EBADMSG);
      }
      ReceivedReads(raw, cnt);
      return Success;
    }

    /** msg_tlv_append: room for length more bytes behind the last TLV, or a refusal that changes nothing. */
    method TlvAppend(ghost stop: nat, length: nat) returns (ok: bool)
      requires data.Length >= HEADER_LENGTH && KnownType(MsgType(data[..]))
      requires Tiles(data[..], tlvs, PduLength(MsgType(data[..])), stop)
      modifies this`tlvs, data
      ensures ok == (stop + length <= data.Length)
      ensures !ok ==> tlvs == old(tlvs) && data[..] == old(data[..])
      ensures ok ==> && tlvs == old(tlvs) + [Descriptor(stop, NoExtra)]
                     && data[..] == Set16(old(data[..]), 2, (Get16(false, old(data[..]), 2) + length) % 0x1_0000)
    {
      var ptr := PduLength(data[0] as int % 16);
      if |tlvs| > 0 {
        LastTile(data[..], tlvs, PduLength(MsgType(data[..])), stop);
        var last := tlvs[|tlvs| - 1].off;
        ptr := last + TLV_HEADER + Get16(false, data[..], last + 2);
      }
      ok := ptr + length <= data.Length;
      if ok {
        var total := (Get16(false, data[..], 2) + length) % 0x1_0000;
        data[2], data[3] := total % 256, total / 256;
        tlvs := tlvs + [Descriptor(ptr, NoExtra)];
      }
    }

    /** Converts a well-formed host message of cnt bytes for sending; an unknown type is refused behind the header. */
    method PreSend(ghost cnt: nat) returns (ok: bool)
      requires HEADER_LENGTH <= cnt <= data.Length
      requires KnownType(MsgType(data[..])) ==>
                 Examine(false, data[..], cnt).Accepted? && tlvs == Examine(false, data[..], cnt).tlvs
      modifies data
      ensures ok == KnownType(MsgType(old(data[..])))
      ensures ok ==> data[..] == Sent(old(data[..]), cnt) && MessageReads(false, old(data[..]), data[..], cnt)
    {
      hide FlipAll, SuffixWalk, BodyFields, TimestampFields, Sent, Examine, MessageReads;
      ghost var b := data[..];
      HeaderStep(false, b);
      FlipAllInPlace(data, HEADER_FIELDS);
      var kind := data[0] as int % 16;
      ok := KnownType(kind);
      if ok {
        SendStep(b, cnt, kind);
        FlipAllInPlace(data, TimestampFields(kind));
        FlipAllInPlace(data, BodyFields(kind));
        SuffixPreSend(PduLength(kind), cnt);
        SentReads(b, cnt);
      }
    }

    /**
     * monitor_forward: sends the message, converts it back in place and counts up its sequence number. All other
     * bytes and the TLVs are as before, but for the body timestamp, which stays in network order.
     */
    method MonitorForward() returns (ok: bool)
      requires data.Length >= 44
      requires var cnt := Get16(false, data[..], 2);
               cnt <= data.Length && Examine(false, data[..], cnt).Accepted? && tlvs == Examine(false, data[..], cnt).tlvs
      modifies this, data
      ensures ok && tlvs == old(tlvs)
      ensures var b := old(data[..]);
              var c := FlipAll(b, TimestampFields(MsgType(b)));
              data[..] == Set16(c, 30, (Get16(false, b, 30) + 1) % 0x1_0000)
    {
      hide FlipAll, Layout, SuffixWalk, BodyFields, TimestampFields, Sent, MessageReads;
      ghost var b := data[..];
      var cnt := Get16(false, data[..], 2);
      SentIsExamined(b, cnt);
      SendThenReceive(b, cnt);
      ok := PreSend(cnt);
      var status := PostRecv(cnt);
      ok := status == Success;
      SequenceKept(b);
      var next := (Get16(false, data[..], 30) + 1) % 0x1_0000;
      data[30], data[31] := next % 256, next / 256;
    }
  }

  lemma SequenceKept(b: seq<Byte>)
    requires |b| >= 44
    ensures Layout(TimestampFields(MsgType(b)), 0, |b|)
    ensures Get16(false, FlipAll(b, TimestampFields(MsgType(b))), 30) == Get16(false, b, 30)
  {
    var fs := TimestampFields(MsgType(b));
    assert Free(fs, 30) && Free(fs, 31);
    FlipAllFree(b, fs, 30);
    FlipAllFree(b, fs, 31);
  }
}
