/** The walk over a TLV gives the same answer before and after conversion to network order. */
module TlvSurvival {
  import opened Bytes
  import opened Tlv

  ghost predicate AllFlipped(b: seq<Byte>, c: seq<Byte>, fs: seq<Field>)
    requires |b| == |c|
  {
    forall k :: 0 <= k < |fs| ==> fs[k].off + fs[k].len <= |b| && FieldFlipped(b, c, fs[k])
  }

  /** The two walks over a master table visit the same offsets: each reads the length the other wrote. */
  lemma {:induction false} EntriesSurvive(net: bool, b: seq<Byte>, c: seq<Byte>, p: nat, limit: nat, count: nat)
    requires p <= limit <= |b| == |c|
    requires Entries(net, b, p, limit, count).Walk?
    requires AllFlipped(b, c, Entries(net, b, p, limit, count).fields)
    ensures Entries(!net, c, p, limit, count) == Entries(net, b, p, limit, count)
    decreases count
  {
    hide FieldFlipped, Get16;
    if count > 0 {
      var fs := Entries(net, b, p, limit, count).fields;
      var next := p + MASTER_ENTRY + Get16(net, b, p + 20);
      var rest := Entries(net, b, next, limit, count - 1);
      assert fs == EntryFields(p) + rest.fields;
      assert fs[3] == Field(p + 20, 2);
      Get16Flipped(b, c, fs[3]);
      forall k | 0 <= k < |rest.fields|
        ensures rest.fields[k].off + rest.fields[k].len <= |b| && FieldFlipped(b, c, rest.fields[k])
      {
        assert fs[4 + k] == rest.fields[k];
      }
      EntriesSurvive(net, b, c, next, limit, count - 1);
    }
  }

  /** A description depends on six of the values in it. */
  lemma DescriptionSame(net: bool, b: seq<Byte>, c: seq<Byte>, d: nat, limit: nat)
    requires d <= limit <= |b| == |c|
    requires Description(net, b, d, limit).Walk?
    requires var x := Description(net, b, d, limit).extra;
             && Get16(!net, c, x.physicalAddress) == Get16(net, b, x.physicalAddress)
             && Get16(!net, c, x.protocolAddress + 2) == Get16(net, b, x.protocolAddress + 2)
             && c[x.physicalLayerProtocol] == b[x.physicalLayerProtocol]
             && c[x.productDescription] == b[x.productDescription]
             && c[x.revisionData] == b[x.revisionData] && c[x.userDescription] == b[x.userDescription]
    ensures Description(!net, c, d, limit) == Description(net, b, d, limit)
  {
    hide Get16, Layout;
  }

  lemma DescriptionSurvives(net: bool, b: seq<Byte>, c: seq<Byte>, d: nat, limit: nat)
    requires d <= limit <= |b| == |c|
    requires Description(net, b, d, limit).Walk?
    requires Flipped(b, c, Description(net, b, d, limit).fields, d, limit)
    ensures Description(!net, c, d, limit) == Description(net, b, d, limit)
  {
    hide FieldFlipped, Layout;
    var w := Description(net, b, d, limit);
    var fs, x := w.fields, w.extra;
    assert fs == [Field(d, 2), Field(x.physicalAddress, 2), Field(x.protocolAddress, 2), Field(x.protocolAddress + 2, 2)];
    Get16Flipped(b, c, fs[1]);
    Get16Flipped(b, c, fs[3]);
    forall i | i in {x.physicalLayerProtocol, x.productDescription, x.revisionData, x.userDescription}
      ensures c[i] == b[i]
    {
      assert Free(fs, i);
    }
    DescriptionSame(net, b, c, d, limit);
  }

  lemma MgtSurvives(net: bool, b: seq<Byte>, c: seq<Byte>, d: nat, limit: nat, id: int)
    requires d <= limit <= |b| == |c|
    requires MgtWalk(net, b, d, limit, id).Walk?
    requires Flipped(b, c, MgtWalk(net, b, d, limit, id).fields, d, limit)
    ensures MgtWalk(!net, c, d, limit, id) == MgtWalk(net, b, d, limit, id)
  {
    hide FieldFlipped, Description, Entries;
    match MgtRuleOf(id)
    case Text(size, t, fs) =>
      TextLengthFree(d, t, fs);
    case ClockDescriptionData =>
      DescriptionSurvives(net, b, c, d, limit);
    case MasterTable =>
      MasterTableSurvives(net, b, c, d, limit);
    case _ =>
  }

  lemma TextLengthFree(d: nat, t: nat, fs: seq<Field>)
    requires Layout(fs, 0, t)
    ensures Free(At(d, fs), d + t)
  {
  }

  lemma MasterTableSurvives(net: bool, b: seq<Byte>, c: seq<Byte>, d: nat, limit: nat)
    requires d + 2 <= limit <= |b| == |c|
    requires var w := Entries(net, b, d + 2, limit, Get16(net, b, d));
             w.Walk? && AllFlipped(b, c, [Field(d, 2)] + w.fields)
    ensures Get16(!net, c, d) == Get16(net, b, d)
    ensures Entries(!net, c, d + 2, limit, Get16(!net, c, d)) == Entries(net, b, d + 2, limit, Get16(net, b, d))
  {
    hide FieldFlipped, Layout, Entries;
    var fs := Entries(net, b, d + 2, limit, Get16(net, b, d)).fields;
    assert ([Field(d, 2)] + fs)[0] == Field(d, 2);
    Get16Flipped(b, c, Field(d, 2));
    forall k | 0 <= k < |fs|
      ensures fs[k].off + fs[k].len <= |b| && FieldFlipped(b, c, fs[k])
    {
      assert ([Field(d, 2)] + fs)[1 + k] == fs[k];
    }
    EntriesSurvive(net, b, c, d + 2, limit, Get16(net, b, d));
  }

  lemma NsmSurvives(net: bool, b: seq<Byte>, c: seq<Byte>, o: nat, length: nat)
    requires o + 4 + length <= |b| == |c|
    requires NsmWalk(net, b, o, length).Walk?
    requires Flipped(b, c, NsmWalk(net, b, o, length).fields, o + 4, o + 4 + length)
    ensures NsmWalk(!net, c, o, length) == NsmWalk(net, b, o, length)
  {
    hide FieldFlipped, Layout;
    var fs := NsmWalk(net, b, o, length).fields;
    assert fs[0] == Field(o + 6, 2) && fs[1] == Field(o + 8, 2);
    Get16Flipped(b, c, fs[0]);
    Get16Flipped(b, c, fs[1]);
  }

  lemma OrgSurvives(b: seq<Byte>, c: seq<Byte>, o: nat, length: nat)
    requires o + 4 + length <= |b| == |c|
    requires OrgWalk(b, o, length).Walk?
    requires Flipped(b, c, OrgWalk(b, o, length).fields, o + 4, o + 4 + length)
    ensures OrgWalk(c, o, length) == OrgWalk(b, o, length)
  {
    var fs := OrgWalk(b, o, length).fields;
    forall i | o + 4 <= i < o + 10
      ensures c[i] == b[i]
    {
      assert Free(fs, i);
    }
    assert c[o + 4..o + 7] == b[o + 4..o + 7] && c[o + 7..o + 10] == b[o + 7..o + 10];
  }

  /** A TLV accepted in one byte order is accepted in the other, with the same fields and pointers. */
  lemma BodySurvives(net: bool, b: seq<Byte>, c: seq<Byte>, o: nat, kind: int, length: nat)
    requires o + TLV_HEADER + length <= |b| == |c| && length < 0x1_0000 && length % 2 == 0
    requires BodyWalk(net, b, o, kind, length).Walk?
    requires Flipped(b, c, BodyWalk(net, b, o, kind, length).fields, o + TLV_HEADER, o + TLV_HEADER + length)
    ensures BodyWalk(!net, c, o, kind, length) == BodyWalk(net, b, o, kind, length)
  {
    hide FieldFlipped, Layout, MgtWalk, NsmWalk, OrgWalk, RecordsWalk;
    var fs := BodyWalk(net, b, o, kind, length).fields;
    if kind == TLV_MANAGEMENT {
      ManagementSurvives(net, b, c, o, length);
    } else if kind == TLV_ORGANIZATION_EXTENSION {
      OrgSurvives(b, c, o, length);
    } else if kind == TLV_PTPMON_RESP {
      NsmSurvives(net, b, c, o, length);
    } else if kind == TLV_ALTERNATE_TIME_OFFSET_INDICATOR {
      assert Free(fs, o + 19);
    } else if TLV_REQUEST_UNICAST_TRANSMISSION <= kind <= TLV_ACKNOWLEDGE_CANCEL_UNICAST_TRANSMISSION {
      assert Free(fs, o + 4);
    }
  }

  lemma ManagementSurvives(net: bool, b: seq<Byte>, c: seq<Byte>, o: nat, length: nat)
    requires o + TLV_HEADER + length <= |b| == |c| && length < 0x1_0000 && length % 2 == 0
    requires BodyWalk(net, b, o, TLV_MANAGEMENT, length).Walk?
    requires Flipped(b, c, BodyWalk(net, b, o, TLV_MANAGEMENT, length).fields, o + TLV_HEADER, o + TLV_HEADER + length)
    ensures BodyWalk(!net, c, o, TLV_MANAGEMENT, length) == BodyWalk(net, b, o, TLV_MANAGEMENT, length)
  {
    hide FieldFlipped, Layout, MgtWalk;
    var w := BodyWalk(net, b, o, TLV_MANAGEMENT, length);
    assert w.fields[0] == Field(o + 4, 2);
    Get16Flipped(b, c, w.fields[0]);
    if length > 2 {
      var id, end := Get16(net, b, o + 4), o + 4 + length;
      var fs := MgtWalk(net, b, o + 6, end, id).fields;
      assert w.fields == [Field(o + 4, 2)] + fs + [];
      OneField(o + 4, 2);
      FlippedPart(b, c, [Field(o + 4, 2)], fs, [], o + 4, o + 6, end, end);
      MgtSurvives(net, b, c, o + 6, end, id);
    }
  }

  lemma OneField(off: nat, len: nat)
    ensures Layout([Field(off, len)], off, off + len)
    ensures Layout([], off + len, off + len)
  {
  }

  /** A conversion of many fields, seen on the stretch of some of them. */
  lemma FlippedPart(b: seq<Byte>, c: seq<Byte>, before: seq<Field>, fs: seq<Field>, after: seq<Field>,
                    lo: nat, from: nat, to: nat, hi: nat)
    requires lo <= from <= to <= hi <= |b| == |c|
    requires Layout(before, lo, from) && Layout(fs, from, to) && Layout(after, to, hi)
    requires Layout(before + fs + after, lo, hi) && Flipped(b, c, before + fs + after, lo, hi)
    ensures Flipped(b, c, fs, from, to)
  {
    var all := before + fs + after;
    forall k | 0 <= k < |fs|
      ensures FieldFlipped(b, c, fs[k])
    {
      assert all[|before| + k] == fs[k];
    }
    forall i | from <= i < to && Free(fs, i)
      ensures c[i] == b[i]
    {
      LayoutWiden(before, lo, from, 0, from);
      FreeJoin(before, fs, after, from, to, hi, i);
    }
  }

  // ----- the walk looks at nothing outside the value

  ghost predicate SameBytes(b: seq<Byte>, c: seq<Byte>, lo: nat, hi: nat)
    requires lo <= hi <= |b| == |c|
  {
    forall i :: lo <= i < hi ==> b[i] == c[i]
  }

  lemma {:induction false} EntriesLocal(net: bool, b: seq<Byte>, c: seq<Byte>, p: nat, limit: nat, count: nat)
    requires p <= limit <= |b| == |c| && SameBytes(b, c, p, limit)
    ensures Entries(net, c, p, limit, count) == Entries(net, b, p, limit, count)
    decreases count
  {
    if count > 0 && p + MASTER_ENTRY <= limit {
      var next := p + MASTER_ENTRY + Get16(net, b, p + 20);
      if next <= limit {
        EntriesLocal(net, b, c, next, limit, count - 1);
      }
    }
  }

  lemma TextLocal(b: seq<Byte>, c: seq<Byte>, lo: nat, p: nat, limit: nat)
    requires lo <= p && lo <= limit <= |b| == |c| && SameBytes(b, c, lo, limit)
    ensures AfterText(c, p, limit) == AfterText(b, p, limit)
  {
  }

  lemma AddressLocal(net: bool, b: seq<Byte>, c: seq<Byte>, lo: nat, p: nat, limit: nat)
    requires lo <= p && lo <= limit <= |b| == |c| && SameBytes(b, c, lo, limit)
    ensures AfterAddress(net, c, p, limit) == AfterAddress(net, b, p, limit)
  {
  }

  lemma DescriptionLocal(net: bool, b: seq<Byte>, c: seq<Byte>, d: nat, limit: nat)
    requires d <= limit <= |b| == |c| && SameBytes(b, c, d, limit)
    ensures Description(net, c, d, limit) == Description(net, b, d, limit)
  {
    hide Layout, AfterText, AfterAddress, SameBytes;
    TextLocal(b, c, d, d + 2, limit);
    var physical := AfterText(b, d + 2, limit);
    AddressLocal(net, b, c, d, physical, limit);
    var address := AfterAddress(net, b, physical, limit);
    AddressLocal(net, b, c, d, address + 2, limit);
    var product := AfterAddress(net, b, address + 2, limit) + 4;
    TextLocal(b, c, d, product, limit);
    var revision := AfterText(b, product, limit);
    TextLocal(b, c, d, revision, limit);
    TextLocal(b, c, d, AfterText(b, revision, limit), limit);
  }

  lemma MgtLocal(net: bool, b: seq<Byte>, c: seq<Byte>, d: nat, limit: nat, id: int)
    requires d <= limit <= |b| == |c| && SameBytes(b, c, d, limit)
    ensures MgtWalk(net, c, d, limit, id) == MgtWalk(net, b, d, limit, id)
  {
    hide Layout, MgtRuleOf, At, Entries, Description;
    match MgtRuleOf(id)
    case ClockDescriptionData => DescriptionLocal(net, b, c, d, limit);
    case MasterTable =>
      if d + 2 <= limit {
        EntriesLocal(net, b, c, d + 2, limit, Get16(net, b, d));
      }
    case _ =>
  }

  lemma OrgLocal(b: seq<Byte>, c: seq<Byte>, o: nat, length: nat)
    requires o + 4 + length <= |b| == |c| && SameBytes(b, c, o + 4, o + 4 + length)
    ensures OrgWalk(c, o, length) == OrgWalk(b, o, length)
  {
  }

  lemma BodyLocal(net: bool, b: seq<Byte>, c: seq<Byte>, o: nat, kind: int, length: nat)
    requires o + TLV_HEADER + length <= |b| == |c| && length < 0x1_0000 && length % 2 == 0
    requires SameBytes(b, c, o + TLV_HEADER, o + TLV_HEADER + length)
    ensures BodyWalk(net, c, o, kind, length) == BodyWalk(net, b, o, kind, length)
  {
    hide MgtWalk, OrgWalk, RecordsWalk, Layout;
    if kind == TLV_MANAGEMENT && length > 2 {
      MgtLocal(net, b, c, o + 6, o + 4 + length, Get16(net, b, o + 4));
    } else if kind == TLV_ORGANIZATION_EXTENSION {
      OrgLocal(b, c, o, length);
    }
  }
}
