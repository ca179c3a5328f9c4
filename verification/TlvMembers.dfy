/** The structures of management data and of TLVs, and that tlv.c converts just the integers in them. */
module TlvMembers {
  import opened Bytes
  import opened Tlv
  import opened WireFormat

  // ----- management data

  /** The structure that the data of a management TLV begins with; texts and further octets come behind it. */
  function DataStruct(id: int): seq<Member> {
    if id >= 0xC000 then NonPortableStruct(id)
    else if id == 0x0002 /* PTPText */ then [Octets(1)]
    else if id == 0x2000 /* defaultDS */ then [Octets(2), U16, Octets(3), U16, Octets(11)]
    else if id == 0x2001 /* currentDS */ then [U16, U64, U64]
    else if id == 0x2002 /* parentDS */ then [Octets(8), U16, Octets(2), U16, U32, Octets(3), U16, Octets(9)]
    else if id == 0x2003 /* timePropertiesDS */ then [U16, Octets(2)]
    else if id == 0x2004 /* portDS */ then [Octets(8), U16, Octets(2), U64, Octets(6)]
    else if id == 0x201F /* alternate_time_offset_name */ then [Octets(2)]
    else if id == 0x2021 /* alternate_time_offset_properties */ then [Octets(1), U32, U32, U16, U32, Octets(1)]
    else []
  }

  const SCALED_NS: seq<Member> := [U16, U64, U16]

  function NonPortableStruct(id: int): seq<Member> {
    if id == 0xC000 /* time_status_np */ then
      [U64, U64, U32, U32, U16] + SCALED_NS + [U32, Octets(8)]
    else if id == 0xC001 /* grandmaster_settings_np */ then [Octets(2), U16, U16, Octets(2)]
    else if id == 0xC002 /* port_ds_np */ then [U32, U32]
    else if id == 0xC003 /* subscribe_events_np */ then [U16, Octets(64)]
    else if id == 0xC004 /* port_properties_np */ then [Octets(8), U16, Octets(3)]
    else if id == 0xC005 /* port_stats_np, whose counters are little-endian */ then [Octets(8), U16, Octets(256)]
    else if id == 0xC007 /* port_service_stats_np, likewise */ then [Octets(8), U16, Octets(80)]
    else if id == 0xC009 /* port_hwclock_np */ then [Octets(8), U16, U32, Octets(2)]
    else if id == 0xC00A /* ieee_c37_238_settings_np */ then [U16, U16, U32, U32, U32]
    else if id == 0xC00B /* cmlds_info_np */ then [U64, U32, U32]
    else []
  }

  /** The conversion table of a management id: just the integers of its structure, and the size of it. */
  ghost predicate RuleIs(r: MgtRule, ms: seq<Member>) {
    match r
    case Exact(size, fs) => Numbers(0, ms) == fs && Size(ms) == size
    case AtLeast(size, fs) => Numbers(0, ms) == fs && Size(ms) == size
    case Padded(size, fs) => Numbers(0, ms) == fs && Size(ms) == size
    case Text(size, _, fs) => Numbers(0, ms) == fs && Size(ms) == size
    case _ => ms == []
  }

  lemma DataStructIsConverted(id: int)
    ensures RuleIs(MgtRuleOf(id), DataStruct(id))
  {
    if id >= 0xC000 {
      hide RuleIs, Layout, NonPortableRule, NonPortableStruct;
      NonPortableStructIsConverted(id);
    } else if id in {0x2000, 0x2001} {
      ClockDataAreConverted(id);
    } else if id == 0x2002 {
      ParentIsConverted();
    } else if id in {0x2003, 0x2004} {
      PortDataAreConverted(id);
    } else if id == 0x2021 {
      TimeOffsetIsConverted();
    } else {
      TextsAreNotConverted(id);
    }
  }

  lemma NonPortableStructIsConverted(id: int)
    requires id >= 0xC000
    ensures RuleIs(NonPortableRule(id), NonPortableStruct(id))
  {
    hide RuleIs, Layout, NonPortableRule, NonPortableStruct;
    if id == 0xC000 {
      TimeStatusIsConverted();
    } else if id <= 0xC003 {
      SettingsAreConverted(id);
    } else if id <= 0xC007 {
      PortRecordsAreConverted(id);
    } else {
      ProfileDataAreConverted(id);
    }
  }

  lemma ClockDataAreConverted(id: int)
    requires id in {0x2000, 0x2001}
    ensures RuleIs(MgtRuleOf(id), DataStruct(id))
  {
    hide Layout, RuleLayout, NonPortableRule, NonPortableStruct;
    assert RuleIs(MgtRuleOf(0x2000), DataStruct(0x2000));
    assert RuleIs(MgtRuleOf(0x2001), DataStruct(0x2001));
  }

  lemma ParentIsConverted()
    ensures RuleIs(MgtRuleOf(0x2002), DataStruct(0x2002))
  {
    hide Layout, RuleLayout;
  }

  lemma PortDataAreConverted(id: int)
    requires id in {0x2003, 0x2004}
    ensures RuleIs(MgtRuleOf(id), DataStruct(id))
  {
    hide Layout, RuleLayout, NonPortableRule, NonPortableStruct;
    assert RuleIs(MgtRuleOf(0x2003), DataStruct(0x2003));
    assert RuleIs(MgtRuleOf(0x2004), DataStruct(0x2004));
  }

  lemma TimeOffsetIsConverted()
    ensures RuleIs(MgtRuleOf(0x2021), DataStruct(0x2021))
  {
    hide Layout, RuleLayout;
  }

  lemma TextsAreNotConverted(id: int)
    requires id < 0xC000 && id !in {0x2000, 0x2001, 0x2002, 0x2003, 0x2004, 0x2021}
    ensures RuleIs(MgtRuleOf(id), DataStruct(id))
  {
    hide Layout, RuleLayout, NonPortableRule, NonPortableStruct;
    assert RuleIs(MgtRuleOf(0x0002), DataStruct(0x0002));
    assert RuleIs(MgtRuleOf(0x201F), DataStruct(0x201F));
  }

  lemma TimeStatusIsConverted()
    ensures RuleIs(NonPortableRule(0xC000), NonPortableStruct(0xC000))
  {
    hide Layout, RuleLayout, Numbers, Size;
    var first, last: seq<Member> := [U64, U64, U32, U32, U16], [U32, Octets(8)];
    TimeStatusNumbers();
    GmPresentNumbers();
    ScaledNsNumbers(26);
    NumbersAppend(0, first + SCALED_NS, last);
    NumbersAppend(0, first, SCALED_NS);
  }

  lemma ScaledNsNumbers(p: nat)
    ensures Size(SCALED_NS) == 12 && Numbers(p, SCALED_NS) == [Field(p, 2), Field(p + 2, 8), Field(p + 10, 2)]
  {
    assert Size([U16, U64, U16]) == 12;
    assert Numbers(p, [U16, U64, U16]) == [Field(p, 2), Field(p + 2, 8), Field(p + 10, 2)];
  }

  lemma TimeStatusNumbers()
    ensures Size([U64, U64, U32, U32, U16]) == 26
    ensures Numbers(0, [U64, U64, U32, U32, U16])
            == [Field(0, 8), Field(8, 8), Field(16, 4), Field(20, 4), Field(24, 2)]
  {
  }

  lemma GmPresentNumbers()
    ensures Size([U32, Octets(8)]) == 12 && Numbers(38, [U32, Octets(8)]) == [Field(38, 4)]
  {
  }

  lemma SettingsAreConverted(id: int)
    requires 0xC001 <= id <= 0xC003
    ensures RuleIs(NonPortableRule(id), NonPortableStruct(id))
  {
    hide Layout, RuleLayout;
    assert RuleIs(NonPortableRule(0xC001), NonPortableStruct(0xC001));
    assert RuleIs(NonPortableRule(0xC002), NonPortableStruct(0xC002));
    assert RuleIs(NonPortableRule(0xC003), NonPortableStruct(0xC003));
  }

  lemma PortRecordsAreConverted(id: int)
    requires 0xC004 <= id <= 0xC007
    ensures RuleIs(NonPortableRule(id), NonPortableStruct(id))
  {
    hide Layout, RuleLayout;
    assert RuleIs(NonPortableRule(0xC004), NonPortableStruct(0xC004));
    assert RuleIs(NonPortableRule(0xC005), NonPortableStruct(0xC005));
    assert RuleIs(NonPortableRule(0xC007), NonPortableStruct(0xC007));
  }

  lemma ProfileDataAreConverted(id: int)
    requires 0xC007 < id
    ensures RuleIs(NonPortableRule(id), NonPortableStruct(id))
  {
    hide Layout, RuleLayout;
    if id == 0xC00A {
      PowerProfileIsConverted();
    } else {
      assert RuleIs(NonPortableRule(0xC009), NonPortableStruct(0xC009));
      assert RuleIs(NonPortableRule(0xC00B), NonPortableStruct(0xC00B));
    }
  }

  lemma PowerProfileIsConverted()
    ensures RuleIs(NonPortableRule(0xC00A), NonPortableStruct(0xC00A))
  {
    hide Layout, RuleLayout;
  }

  /** The members of the management data from d up to limit, for data that is accepted. */
  function DataMembers(net: bool, b: seq<Byte>, d: nat, limit: nat, id: int): seq<Member>
    requires d <= limit <= |b| && MgtWalk(net, b, d, limit, id).Walk?
  {
    if id == 0x0001 then DescriptionMembers(net, b, d, limit)
    else if id == 0xC008 then [U16] + TableMembers(net, b, d + 2, limit, Get16(net, b, d))
    else DataStruct(id) + [Octets(Left(limit - d, DataStruct(id)))]
  }

  function Left(len: nat, ms: seq<Member>): nat {
    if len < Size(ms) then 0 else len - Size(ms)
  }

  /** The clock type, a text, a physical address, a protocol address, and from its octets on no more integers. */
  function DescriptionMembers(net: bool, b: seq<Byte>, d: nat, limit: nat): seq<Member>
    requires d <= limit <= |b| && Description(net, b, d, limit).Walk?
  {
    var physical := d + 3 + b[d + 2] as int;
    var address := physical + 2 + Get16(net, b, physical);
    ([U16] + [Octets(physical - d - 2)]) + ([U16] + [Octets(address - physical - 2)])
    + ([U16, U16] + [Octets(limit - address - 4)])
  }

  const MASTER_ENTRY_STRUCT: seq<Member> := [Octets(8), U16, Octets(2), U16, Octets(4), U16, U16]

  /** The entries of a unicast master table, each with its address. */
  function TableMembers(net: bool, b: seq<Byte>, p: nat, limit: nat, count: nat): seq<Member>
    requires p <= limit <= |b| && Entries(net, b, p, limit, count).Walk?
    decreases count
  {
    if count == 0 then [Octets(limit - p)]
    else
      var length := Get16(net, b, p + 20);
      MASTER_ENTRY_STRUCT + [Octets(length)] + TableMembers(net, b, p + 22 + length, limit, count - 1)
  }

  lemma AddressNumbers(p: nat)
    ensures Size([U16]) == 2 && Numbers(p, [U16]) == [Field(p, 2)]
    ensures Size([U16, U16]) == 4 && Numbers(p, [U16, U16]) == [Field(p, 2), Field(p + 2, 2)]
  {
  }

  lemma DescriptionNumbers(net: bool, b: seq<Byte>, d: nat, limit: nat)
    requires d <= limit <= |b| && Description(net, b, d, limit).Walk?
    ensures var ms := DescriptionMembers(net, b, d, limit);
            Size(ms) == limit - d && Numbers(d, ms) == Description(net, b, d, limit).fields
  {
    hide Layout, Get16, Numbers, Size;
    AddressNumbers(d);
    AddressNumbers(d + 3 + b[d + 2] as int);
    var physical := d + 3 + b[d + 2] as int;
    var address := physical + 2 + Get16(net, b, physical);
    AddressNumbers(address);
    NumbersThenOctets(d, [U16], physical - d - 2);
    NumbersThenOctets(physical, [U16], address - physical - 2);
    NumbersThenOctets(address, [U16, U16], limit - address - 4);
    var kind, host := [U16] + [Octets(physical - d - 2)], [U16] + [Octets(address - physical - 2)];
    NumbersAppend(d, kind, host);
    NumbersAppend(d, kind + host, [U16, U16] + [Octets(limit - address - 4)]);
  }

  /** The pointers of a clock description: each part begins where the one before it ends. */
  lemma DescriptionPointers(net: bool, b: seq<Byte>, d: nat, limit: nat)
    requires d <= limit <= |b| && Description(net, b, d, limit).Walk?
    ensures var x := Description(net, b, d, limit).extra;
            && x.clockType == d && x.physicalLayerProtocol == d + 2
            && x.profileIdentity + 6 <= limit <= |b|
            && x.physicalLayerProtocol < x.physicalAddress < x.protocolAddress < x.manufacturerIdentity
            && x.manufacturerIdentity < x.productDescription < x.revisionData < x.userDescription < x.profileIdentity
            && x.physicalAddress == x.physicalLayerProtocol + 1 + b[x.physicalLayerProtocol] as int
            && x.protocolAddress == x.physicalAddress + 2 + Get16(net, b, x.physicalAddress)
            && x.manufacturerIdentity == x.protocolAddress + 4 + Get16(net, b, x.protocolAddress + 2)
            && x.productDescription == x.manufacturerIdentity + 4
            && x.revisionData == x.productDescription + 1 + b[x.productDescription] as int
            && x.userDescription == x.revisionData + 1 + b[x.revisionData] as int
            && x.profileIdentity == x.userDescription + 1 + b[x.userDescription] as int
            && limit - d == x.profileIdentity + 6 - d + (x.profileIdentity - d) % 2
  {
    hide Layout, Get16;
  }

  lemma EntryNumbers(p: nat)
    ensures Size(MASTER_ENTRY_STRUCT) == MASTER_ENTRY && Numbers(p, MASTER_ENTRY_STRUCT) == EntryFields(p)
  {
    hide Layout;
  }

  lemma NoMembers(p: nat)
    ensures Size([]) == 0 && Numbers(p, []) == []
  {
  }

  lemma {:induction false} TableNumbers(net: bool, b: seq<Byte>, p: nat, limit: nat, count: nat)
    requires p <= limit <= |b| && Entries(net, b, p, limit, count).Walk?
    ensures var ms := TableMembers(net, b, p, limit, count);
            Size(ms) == limit - p && Numbers(p, ms) == Entries(net, b, p, limit, count).fields
    decreases count
  {
    hide Layout, Get16, Numbers, Size, EntryFields;
    if count == 0 {
      NumbersThenOctets(p, [], limit - p);
      NoMembers(p);
      assert [] + [Octets(limit - p)] == [Octets(limit - p)];
    } else {
      var length := Get16(net, b, p + 20);
      TableNumbers(net, b, p + 22 + length, limit, count - 1);
      EntryNumbers(p);
      NumbersThenOctets(p, MASTER_ENTRY_STRUCT, length);
      NumbersAppend(p, MASTER_ENTRY_STRUCT + [Octets(length)], TableMembers(net, b, p + 22 + length, limit, count - 1));
    }
  }

  lemma VariableRules(id: int)
    ensures MgtRuleOf(id) == ClockDescriptionData <==> id == 0x0001
    ensures MgtRuleOf(id) == MasterTable <==> id == 0xC008
  {
  }

  /** The fields that are converted are just the integers of the structure, and its size is what is accepted. */
  lemma DataNumbers(net: bool, b: seq<Byte>, d: nat, limit: nat, id: int)
    requires d <= limit <= |b| && MgtWalk(net, b, d, limit, id).Walk?
    ensures var ms := DataMembers(net, b, d, limit, id);
            Size(ms) == limit - d && Numbers(d, ms) == MgtWalk(net, b, d, limit, id).fields
  {
    hide Layout, Get16, Description, Entries, DescriptionMembers, TableMembers, DataStruct, MgtRuleOf;
    VariableRules(id);
    if id == 0x0001 {
      DescriptionNumbers(net, b, d, limit);
    } else if id == 0xC008 {
      TableNumbers(net, b, d + 2, limit, Get16(net, b, d));
      NumbersAppend(d, [U16], TableMembers(net, b, d + 2, limit, Get16(net, b, d)));
    } else {
      DataStructIsConverted(id);
      NumbersAt(d, 0, DataStruct(id));
      NumbersThenOctets(d, DataStruct(id), Left(limit - d, DataStruct(id)));
    }
  }

  // ----- the other kinds

  /** The structure of an organization extension, from the organization on. */
  function OrgStruct(id: seq<Byte>, subtype: seq<Byte>): seq<Member> {
    if id == IEEE8021_ID && subtype == [0, 0, 1] /* follow_up_info_tlv */ then [Octets(6), U32, U16] + SCALED_NS + [U32]
    else if id == IEEE8021_ID && subtype == [0, 0, 2] /* msg_interval_req_tlv */ then [Octets(12)]
    else if id == ITU_T_ID && subtype == [0, 0, 2] /* msg_interface_rate_tlv */ then [Octets(6), U64, U16, U16]
    else if id == IEEE_C37_238_ID && subtype in {[0, 0, 1], [0, 0, 2]} /* ieee_c37_238_2011_tlv, .._2017_tlv */ then
      [Octets(6), U16, U32, U32, Octets(2)]
    else []
  }

  lemma OrgStructIsConverted(id: seq<Byte>, subtype: seq<Byte>)
    requires |id| == |subtype| == 3
    ensures match OrgRuleOf(id, subtype)
            case NoRule => OrgStruct(id, subtype) == []
            case OrgRule(size, fs) =>
              Numbers(4, OrgStruct(id, subtype)) == fs && 4 + Size(OrgStruct(id, subtype)) == size > 4
  {
    hide Layout;
    FollowUpInfoNumbers();
    OrgNumbers();
    assert subtype == [subtype[0], subtype[1], subtype[2]];
  }

  lemma OrgNumbers()
    ensures Size([Octets(12)]) == 12 && Numbers(4, [Octets(12)]) == []
    ensures Size([Octets(6), U64, U16, U16]) == 18
    ensures Numbers(4, [Octets(6), U64, U16, U16]) == [Field(10, 8), Field(18, 2), Field(20, 2)]
    ensures Size([Octets(6), U16, U32, U32, Octets(2)]) == 18
    ensures Numbers(4, [Octets(6), U16, U32, U32, Octets(2)]) == [Field(10, 2), Field(12, 4), Field(16, 4)]
  {
  }

  lemma FollowUpInfoNumbers()
    ensures var ms := [Octets(6), U32, U16] + SCALED_NS + [U32];
            && Size(ms) == 28
            && Numbers(4, ms) == [Field(10, 4), Field(14, 2), Field(16, 2), Field(18, 8), Field(26, 2), Field(28, 4)]
  {
    var first: seq<Member> := [Octets(6), U32, U16];
    assert Size([Octets(6), U32, U16]) == 12 && Numbers(4, [Octets(6), U32, U16]) == [Field(10, 4), Field(14, 2)];
    assert Size([U32]) == 4 && Numbers(28, [U32]) == [Field(28, 4)];
    ScaledNsNumbers(16);
    NumbersAppend(4, first + SCALED_NS, [U32]);
    NumbersAppend(4, first, SCALED_NS);
  }

  /** The structure that the value of a TLV begins with, for the kinds without a variable part between integers. */
  function KindStruct(kind: int): seq<Member> {
    if kind == TLV_MANAGEMENT_ERROR_STATUS then [U16, U16, Octets(4)]
    else if kind == TLV_REQUEST_UNICAST_TRANSMISSION then [Octets(2), U32]
    else if kind == TLV_GRANT_UNICAST_TRANSMISSION then [Octets(2), U32, Octets(2)]
    else if kind == TLV_ALTERNATE_TIME_OFFSET_INDICATOR then [Octets(1), U32, U32, U16, U32, Octets(1)]
    else if kind == TLV_AUTHENTICATION then [Octets(2), U32]
    else []
  }

  lemma KindNumbers(net: bool, b: seq<Byte>, o: nat, kind: int, length: nat)
    requires o + TLV_HEADER + length <= |b| && length < 0x1_0000 && length % 2 == 0
    requires BodyWalk(net, b, o, kind, length).Walk?
    requires kind !in {TLV_MANAGEMENT, TLV_ORGANIZATION_EXTENSION, TLV_PTPMON_RESP,
                       TLV_SLAVE_RX_SYNC_TIMING_DATA, TLV_SLAVE_DELAY_TIMING_DATA_NP}
    ensures BodyWalk(net, b, o, kind, length).fields == Numbers(o + 4, KindStruct(kind))
    ensures Size(KindStruct(kind)) <= length
  {
    hide Layout, MgtWalk, OrgWalk, NsmWalk, RecordsWalk;
    UnicastNumbers(o + 4);
    OffsetNumbers(o + 4);
  }

  lemma UnicastNumbers(p: nat)
    ensures Size([U16, U16, Octets(4)]) == 8 && Numbers(p, [U16, U16, Octets(4)]) == [Field(p, 2), Field(p + 2, 2)]
    ensures Size([Octets(2), U32]) == 6 && Numbers(p, [Octets(2), U32]) == [Field(p + 2, 4)]
    ensures Size([Octets(2), U32, Octets(2)]) == 8 && Numbers(p, [Octets(2), U32, Octets(2)]) == [Field(p + 2, 4)]
  {
  }

  lemma OffsetNumbers(p: nat)
    ensures var ms := [Octets(1), U32, U32, U16, U32, Octets(1)];
            && Size(ms) == 16
            && Numbers(p, ms) == [Field(p + 1, 4), Field(p + 5, 4), Field(p + 9, 2), Field(p + 11, 4)]
  {
  }

  const TIMESTAMP: seq<Member> := [U16, U32, U32]

  /** nsm_resp_tlv_foot: parentDS, currentDS, timePropertiesDS and a time stamp. */
  const FOOT_STRUCT: seq<Member> := DataStruct(0x2002) + DataStruct(0x2001) + DataStruct(0x2003) + TIMESTAMP

  lemma FootNumbers()
    ensures Size(FOOT_STRUCT) == 64 && Numbers(0, FOOT_STRUCT) == FOOT_FIELDS
  {
    hide Numbers, Size, DataStruct;
    var parent, current, time := DataStruct(0x2002), DataStruct(0x2001), DataStruct(0x2003);
    DataStructIsConverted(0x2002);
    DataStructIsConverted(0x2001);
    DataStructIsConverted(0x2003);
    TimestampNumbers(54);
    NumbersAt(32, 0, current);
    NumbersAt(50, 0, time);
    NumbersAppend(0, parent, current);
    NumbersAppend(0, parent + current, time);
    NumbersAppend(0, parent + current + time, TIMESTAMP);
  }

  lemma TimestampNumbers(p: nat)
    ensures Size(TIMESTAMP) == 10 && Numbers(p, TIMESTAMP) == [Field(p, 2), Field(p + 2, 4), Field(p + 6, 4)]
  {
    assert Size([U16, U32, U32]) == 10;
    assert Numbers(p, [U16, U32, U32]) == [Field(p, 2), Field(p + 2, 4), Field(p + 6, 4)];
  }

  /** nsm_resp_tlv_head with its address, and the foot. */
  function NsmMembers(net: bool, b: seq<Byte>, o: nat): seq<Member>
    requires o + 10 <= |b|
  {
    [Octets(2), U16, U16] + [Octets(Get16(net, b, o + 8))] + FOOT_STRUCT
  }

  lemma NsmNumbers(net: bool, b: seq<Byte>, o: nat, length: nat)
    requires o + 4 + length <= |b| && NsmWalk(net, b, o, length).Walk?
    ensures o + 10 <= |b|
    ensures var ms := NsmMembers(net, b, o);
            && Size(ms) == length && Numbers(o + 4, ms) == NsmWalk(net, b, o, length).fields
            && NsmWalk(net, b, o, length).extra == Foot(o + 4 + length - 64)
  {
    hide Numbers, Size, Layout, Get16;
    var head, n := [Octets(2), U16, U16], Get16(net, b, o + 8);
    HeadNumbers(o + 4);
    FootNumbers();
    NumbersAt(o + 10 + n, 0, FOOT_STRUCT);
    NumbersThenOctets(o + 4, head, n);
    NumbersAppend(o + 4, head + [Octets(n)], FOOT_STRUCT);
  }

  lemma HeadNumbers(p: nat)
    ensures Size([Octets(2), U16, U16]) == 6
    ensures Numbers(p, [Octets(2), U16, U16]) == [Field(p + 2, 2), Field(p + 4, 2)]
  {
  }

  const DELAY_STRUCT: seq<Member> := [U16] + TIMESTAMP + [U64] + TIMESTAMP

  const RX_SYNC_STRUCT: seq<Member> := [U16] + TIMESTAMP + [U64, U32] + TIMESTAMP

  lemma RecordNumbers()
    ensures Size(DELAY_STRUCT) == DELAY_RECORD && Numbers(0, DELAY_STRUCT) == DelayRecord()
    ensures Size(RX_SYNC_STRUCT) == RX_SYNC_RECORD && Numbers(0, RX_SYNC_STRUCT) == RxSyncRecord()
  {
    hide Numbers, Size;
    var first: seq<Member> := [U16] + TIMESTAMP;
    TimestampNumbers(2);
    TimestampNumbers(20);
    TimestampNumbers(24);
    RecordParts();
    NumbersAppend(0, [U16], TIMESTAMP);
    NumbersAppend(0, first, [U64]);
    NumbersAppend(0, first + [U64], TIMESTAMP);
    NumbersAppend(0, first, [U64, U32]);
    NumbersAppend(0, first + [U64, U32], TIMESTAMP);
  }

  lemma RecordParts()
    ensures Size([U16]) == 2 && Numbers(0, [U16]) == [Field(0, 2)]
    ensures Size([U64]) == 8 && Numbers(12, [U64]) == [Field(12, 8)]
    ensures Size([U64, U32]) == 12 && Numbers(12, [U64, U32]) == [Field(12, 8), Field(20, 4)]
  {
  }

  function Repeated(count: nat, ms: seq<Member>): seq<Member> {
    if count == 0 then [] else ms + Repeated(count - 1, ms)
  }

  lemma {:induction false} RepeatedNumbers(p: nat, count: nat, size: nat, record: seq<Field>, ms: seq<Member>)
    requires Layout(record, 0, size) && Numbers(0, ms) == record && Size(ms) == size
    ensures Size(Repeated(count, ms)) == count * size
    ensures Numbers(p, Repeated(count, ms)) == Records(p, count, size, record)
    decreases count
  {
    hide Layout;
    if count > 0 {
      RepeatedNumbers(p + size, count - 1, size, record, ms);
      NumbersAt(p, 0, ms);
      NumbersAppend(p, ms, Repeated(count - 1, ms));
      assert count * size == size + (count - 1) * size;
    }
  }

  /** slave_rx_sync_timing_data_tlv and slave_delay_timing_data_tlv: a port identity, and as many records as fit. */
  function TimingMembers(length: nat, size: nat, ms: seq<Member>): seq<Member>
    requires size > 0
  {
    [Octets(8), U16] + Repeated(if length < 10 then 0 else (length - 10) / size, ms)
  }

  lemma TimingNumbers(o: nat, length: nat, size: nat, record: seq<Field>, ms: seq<Member>)
    requires Layout(record, 0, size) && Numbers(0, ms) == record && Size(ms) == size
    requires length % 2 == 0 && (size == DELAY_RECORD || size == RX_SYNC_RECORD) && length < 0x1_0000
    requires RecordsWalk(o, length, size, record).Walk?
    ensures Size(TimingMembers(length, size, ms)) == length
    ensures Numbers(o + 4, TimingMembers(length, size, ms)) == RecordsWalk(o, length, size, record).fields
  {
    hide Layout, Records, ArrayInvalid, Numbers, Size, Repeated;
    ArrayTestExact(length, size);
    IdentityNumbers(o + 4);
    var count := (length - RECORD_BASE) / size;
    RepeatedNumbers(o + 14, count, size, record, ms);
    NumbersAppend(o + 4, [Octets(8), U16], Repeated(count, ms));
  }

  lemma IdentityNumbers(p: nat)
    ensures Size([Octets(8), U16]) == 10 && Numbers(p, [Octets(8), U16]) == [Field(p + 8, 2)]
  {
  }

  // ----- the value of a TLV

  function ManagementMembers(net: bool, b: seq<Byte>, o: nat, length: nat): seq<Member>
    requires o + TLV_HEADER + length <= |b| && length >= 2
    requires length > 2 ==> MgtWalk(net, b, o + 6, o + 4 + length, Get16(net, b, o + 4)).Walk?
  {
    if length == 2 then [U16]
    else [U16] + DataMembers(net, b, o + 6, o + 4 + length, Get16(net, b, o + 4))
  }

  function OrgMembers(b: seq<Byte>, o: nat, length: nat): seq<Member>
    requires o + TLV_HEADER + length <= |b| && length >= 6
  {
    var ms := OrgStruct(b[o + 4..o + 7], b[o + 7..o + 10]);
    ms + [Octets(Left(length, ms))]
  }

  lemma Accepted(net: bool, b: seq<Byte>, o: nat, kind: int, length: nat)
    requires o + TLV_HEADER + length <= |b| && length < 0x1_0000 && length % 2 == 0
    requires BodyWalk(net, b, o, kind, length).Walk?
    ensures kind == TLV_MANAGEMENT ==>
              && length >= 2
              && (length > 2 ==> MgtWalk(net, b, o + 6, o + 4 + length, Get16(net, b, o + 4)).Walk?)
    ensures kind == TLV_ORGANIZATION_EXTENSION ==> length >= 6 && OrgWalk(b, o, length).Walk?
    ensures kind == TLV_PTPMON_RESP ==> length >= 70 && NsmWalk(net, b, o, length).Walk?
  {
    hide Layout, MgtWalk, RecordsWalk, Get16;
  }

  /** All members of the value of a TLV that is accepted. */
  function ValueMembers(net: bool, b: seq<Byte>, o: nat, kind: int, length: nat): seq<Member>
    requires o + TLV_HEADER + length <= |b| && length < 0x1_0000 && length % 2 == 0
    requires BodyWalk(net, b, o, kind, length).Walk?
  {
    Accepted(net, b, o, kind, length);
    if kind == TLV_MANAGEMENT then ManagementMembers(net, b, o, length)
    else if kind == TLV_ORGANIZATION_EXTENSION then OrgMembers(b, o, length)
    else if kind == TLV_PTPMON_RESP then NsmMembers(net, b, o)
    else if kind == TLV_SLAVE_RX_SYNC_TIMING_DATA then TimingMembers(length, 34, RX_SYNC_STRUCT)
    else if kind == TLV_SLAVE_DELAY_TIMING_DATA_NP then TimingMembers(length, 30, DELAY_STRUCT)
    else KindStruct(kind) + [Octets(Left(length, KindStruct(kind)))]
  }

  /** The fields that are converted in the value of a TLV are just the integers in its structure. */
  lemma ValueNumbers(net: bool, b: seq<Byte>, o: nat, kind: int, length: nat)
    requires o + TLV_HEADER + length <= |b| && length < 0x1_0000 && length % 2 == 0
    requires BodyWalk(net, b, o, kind, length).Walk?
    ensures var ms := ValueMembers(net, b, o, kind, length);
            Size(ms) == length && Numbers(o + TLV_HEADER, ms) == BodyWalk(net, b, o, kind, length).fields
  {
    hide Layout, MgtWalk, NsmWalk, RecordsWalk, Numbers, Size, Get16;
    hide DataMembers, NsmMembers, TimingMembers, KindStruct;
    if kind == TLV_MANAGEMENT {
      AddressNumbers(o + 4);
      if length > 2 {
        var id := Get16(net, b, o + 4);
        DataNumbers(net, b, o + 6, o + 4 + length, id);
        NumbersAppend(o + 4, [U16], DataMembers(net, b, o + 6, o + 4 + length, id));
      }
    } else if kind == TLV_ORGANIZATION_EXTENSION {
      OrgStructNumbers(b, o, length);
    } else if kind == TLV_PTPMON_RESP {
      NsmNumbers(net, b, o, length);
    } else if kind == TLV_SLAVE_RX_SYNC_TIMING_DATA {
      RecordNumbers();
      TimingNumbers(o, length, RX_SYNC_RECORD, RxSyncRecord(), RX_SYNC_STRUCT);
    } else if kind == TLV_SLAVE_DELAY_TIMING_DATA_NP {
      RecordNumbers();
      TimingNumbers(o, length, DELAY_RECORD, DelayRecord(), DELAY_STRUCT);
    } else {
      KindNumbers(net, b, o, kind, length);
      NumbersThenOctets(o + 4, KindStruct(kind), Left(length, KindStruct(kind)));
    }
  }

  lemma OrgStructNumbers(b: seq<Byte>, o: nat, length: nat)
    requires o + TLV_HEADER + length <= |b| && OrgWalk(b, o, length).Walk?
    ensures var ms := OrgStruct(b[o + 4..o + 7], b[o + 7..o + 10]);
            && Size(ms + [Octets(Left(length, ms))]) == length
            && Numbers(o + 4, ms + [Octets(Left(length, ms))]) == OrgWalk(b, o, length).fields
  {
    hide Layout, OrgStruct, OrgRuleOf;
    var ms := OrgStruct(b[o + 4..o + 7], b[o + 7..o + 10]);
    OrgStructIsConverted(b[o + 4..o + 7], b[o + 7..o + 10]);
    NumbersAt(o, 4, ms);
    NumbersThenOctets(o + 4, ms, Left(length, ms));
  }

  // ----- what is accepted

  /**
   * Which lengths of management data are accepted: those of the structure, with an even number of octets in all where
   * texts and counters come in, at least that of the structure for two ids, none for commands, and any for ids
   * without a structure.
   */
  ghost predicate DataFits(b: seq<Byte>, d: nat, limit: nat, id: int)
    requires d <= limit <= |b|
  {
    var len, size := limit - d, Size(DataStruct(id));
    if id in {0x2000, 0x2001, 0x2002, 0x2003, 0x2004, 0x2021, 0xC000, 0xC001, 0xC002, 0xC003} then len == size
    else if id in {0xC005, 0xC007, 0xC009} then len == PadEven(size)
    else if id in {0xC00A, 0xC00B} then len >= size
    else if id in {0x0002, 0x201F, 0xC004} then
      0 < size <= len && len == PadEven(size + b[d + size - 1] as int)
    else if id in {0x0003, 0x0004, 0x0005, 0x0007, 0x200D, 0x200E} then len == 0
    else true
  }

  lemma DataAcceptedExactly(net: bool, b: seq<Byte>, d: nat, limit: nat, id: int)
    requires d <= limit <= |b| && id != 0x0001 && id != 0xC008
    ensures MgtWalk(net, b, d, limit, id).Walk? <==> DataFits(b, d, limit, id)
  {
    hide Layout, Description, Entries, DataStruct, Size, Numbers;
    DataStructIsConverted(id);
    RuleKinds(id);
  }

  lemma RuleKinds(id: int)
    ensures MgtRuleOf(id).Exact? <==>
              id in {0x2000, 0x2001, 0x2002, 0x2003, 0x2004, 0x2021, 0xC000, 0xC001, 0xC002, 0xC003}
    ensures MgtRuleOf(id).Padded? <==> id in {0xC005, 0xC007, 0xC009}
    ensures MgtRuleOf(id).AtLeast? <==> id in {0xC00A, 0xC00B}
    ensures MgtRuleOf(id).Text? <==> id in {0x0002, 0x201F, 0xC004}
    ensures MgtRuleOf(id).Text? ==> MgtRuleOf(id).textLength == MgtRuleOf(id).size - 1
    ensures MgtRuleOf(id).NoData? <==> id in {0x0003, 0x0004, 0x0005, 0x0007, 0x200D, 0x200E}
  {
  }

  /** The message types that unicast transmission is negotiated for: Announce, Sync and the two delay responses. */
  predicate Negotiable(messageType: Byte) { messageType as int / 16 in {0xB, 0x0, 0x9, 0x3} }

  /** Which lengths, and which contents, of the other kinds of TLVs are accepted. */
  ghost predicate ValueFits(net: bool, b: seq<Byte>, o: nat, kind: int, length: nat)
    requires o + TLV_HEADER + length <= |b|
  {
    if kind == TLV_MANAGEMENT_ERROR_STATUS then length >= 8
    else if kind == TLV_ORGANIZATION_EXTENSION then
      length >= 6 && var ms := OrgStruct(b[o + 4..o + 7], b[o + 7..o + 10]); ms == [] || length == Size(ms)
    else if kind == TLV_REQUEST_UNICAST_TRANSMISSION then length >= 6 && Negotiable(b[o + 4])
    else if kind == TLV_GRANT_UNICAST_TRANSMISSION then length >= 8 && Negotiable(b[o + 4])
    else if kind in {TLV_CANCEL_UNICAST_TRANSMISSION, TLV_ACKNOWLEDGE_CANCEL_UNICAST_TRANSMISSION} then
      length >= 2 && Negotiable(b[o + 4])
    else if kind == TLV_PATH_TRACE then length % 8 == 0
    else if kind == TLV_ALTERNATE_TIME_OFFSET_INDICATOR then length >= 16 && length >= 16 + b[o + 19] as int
    else if kind == TLV_PTPMON_RESP then
      && length >= 70
      && length == 70 + Get16(net, b, o + 8)
      && (Get16(net, b, o + 6), Get16(net, b, o + 8)) in {(1, 4), (2, 16), (3, 6)}
    else if kind == TLV_SLAVE_RX_SYNC_TIMING_DATA then length >= 10 && (length - 10) % 34 == 0
    else if kind == TLV_SLAVE_DELAY_TIMING_DATA_NP then length >= 10 && (length - 10) % 30 == 0
    else if kind == TLV_AUTHENTICATION then length >= 10
    else true
  }

  lemma ValueAcceptedExactly(net: bool, b: seq<Byte>, o: nat, kind: int, length: nat)
    requires o + TLV_HEADER + length <= |b| && length < 0x1_0000 && length % 2 == 0 && kind != TLV_MANAGEMENT
    ensures BodyWalk(net, b, o, kind, length).Walk? <==> ValueFits(net, b, o, kind, length)
  {
    hide Layout, OrgWalk, NsmWalk, RecordsWalk, ArrayInvalid, OrgStruct;
    if kind == TLV_ORGANIZATION_EXTENSION {
      OrgAcceptedExactly(b, o, length);
    } else if kind == TLV_PTPMON_RESP {
      NsmAcceptedExactly(net, b, o, length);
    } else if kind == TLV_SLAVE_RX_SYNC_TIMING_DATA {
      TimingAcceptedExactly(o, length, RX_SYNC_RECORD, RxSyncRecord());
    } else if kind == TLV_SLAVE_DELAY_TIMING_DATA_NP {
      TimingAcceptedExactly(o, length, DELAY_RECORD, DelayRecord());
    } else if kind == TLV_PATH_TRACE {
      PathAcceptedExactly(length);
    }
  }

  lemma OrgAcceptedExactly(b: seq<Byte>, o: nat, length: nat)
    requires o + TLV_HEADER + length <= |b|
    ensures OrgWalk(b, o, length).Walk? <==>
              length >= 6 && var ms := OrgStruct(b[o + 4..o + 7], b[o + 7..o + 10]); ms == [] || length == Size(ms)
  {
    hide Layout, OrgRuleOf, OrgStruct, Numbers;
    if length >= 6 {
      OrgStructIsConverted(b[o + 4..o + 7], b[o + 7..o + 10]);
    }
  }

  lemma NsmAcceptedExactly(net: bool, b: seq<Byte>, o: nat, length: nat)
    requires o + TLV_HEADER + length <= |b|
    ensures NsmWalk(net, b, o, length).Walk? <==>
              && length >= 70 && length == 70 + Get16(net, b, o + 8)
              && (Get16(net, b, o + 6), Get16(net, b, o + 8)) in {(1, 4), (2, 16), (3, 6)}
  {
    hide Layout, Get16;
  }

  lemma TimingAcceptedExactly(o: nat, length: nat, size: nat, record: seq<Field>)
    requires Layout(record, 0, size) && length % 2 == 0 && length < 0x1_0000
    requires size == DELAY_RECORD || size == RX_SYNC_RECORD
    ensures RecordsWalk(o, length, size, record).Walk? <==> length >= 10 && (length - 10) % size == 0
  {
    hide Layout, ArrayInvalid, Records;
    ArrayTestExact(length, size);
  }

  lemma PathAcceptedExactly(length: nat)
    requires length < 0x1_0000
    ensures ArrayInvalid(length, 0, 8) <==> length % 8 != 0
  {
  }
}
