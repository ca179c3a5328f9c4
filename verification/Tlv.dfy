/**
 * The walk over one TLV (tlv.c): which multi-byte fields it holds, and whether its lengths add up.
 * The same walk serves both directions. With net it reads a TLV in network byte order, as tlv_post_recv does;
 * without it reads a TLV in host byte order and so says what a sender must have built.
 */
module Tlv {
  import opened Bytes

  const TLV_HEADER := 4

  const TLV_MANAGEMENT := 0x0001
  const TLV_MANAGEMENT_ERROR_STATUS := 0x0002
  const TLV_ORGANIZATION_EXTENSION := 0x0003
  const TLV_REQUEST_UNICAST_TRANSMISSION := 0x0004
  const TLV_GRANT_UNICAST_TRANSMISSION := 0x0005
  const TLV_CANCEL_UNICAST_TRANSMISSION := 0x0006
  const TLV_ACKNOWLEDGE_CANCEL_UNICAST_TRANSMISSION := 0x0007
  const TLV_PATH_TRACE := 0x0008
  const TLV_ALTERNATE_TIME_OFFSET_INDICATOR := 0x0009
  const TLV_PTPMON_RESP := 0x21FF
  const TLV_SLAVE_DELAY_TIMING_DATA_NP := 0x7F00
  const TLV_SLAVE_RX_SYNC_TIMING_DATA := 0x8004
  const TLV_AUTHENTICATION := 0x8009

  const TRANSPORT_ADDR_LEN := 16
  const IEEE8021_ID: seq<Byte> := [0x00, 0x80, 0xC2]
  const IEEE_C37_238_ID: seq<Byte> := [0x1C, 0x12, 0x9D]
  const ITU_T_ID: seq<Byte> := [0x00, 0x19, 0xA7]

  /** The pointers into a TLV that its descriptor keeps, as offsets into the message. */
  datatype Extra =
    | NoExtra
    | ClockDescription(clockType: nat, physicalLayerProtocol: nat, physicalAddress: nat, protocolAddress: nat,
                       manufacturerIdentity: nat, productDescription: nat, revisionData: nat,
                       userDescription: nat, profileIdentity: nat)
    | UserDescription(text: nat)
    | Foot(foot: nat)

  datatype Walk = BadLength | Walk(fields: seq<Field>, extra: Extra)

  /** A template of fields, placed at offset o. */
  function At(o: nat, fs: seq<Field>): (r: seq<Field>)
    ensures |r| == |fs| && forall i :: 0 <= i < |fs| ==> r[i] == Field(o + fs[i].off, fs[i].len)
  {
    seq(|fs|, i requires 0 <= i < |fs| => Field(o + fs[i].off, fs[i].len))
  }

  lemma LayoutAt(o: nat, fs: seq<Field>, lo: nat, hi: nat, hi': nat)
    requires Layout(fs, lo, hi) && o + hi <= hi'
    ensures Layout(At(o, fs), o + lo, hi')
  {
  }

  lemma LayoutWiden(fs: seq<Field>, lo: nat, hi: nat, lo': nat, hi': nat)
    requires Layout(fs, lo, hi) && lo' <= lo && hi <= hi'
    ensures Layout(fs, lo', hi')
  {
  }

  function PadEven(n: nat): nat { n + n % 2 }

  // ----- management TLVs

  /** What mgt_post_recv demands of the data length, with the multi-byte fields of the data. */
  datatype MgtRule =
    | Exact(size: nat, fields: seq<Field>)
    | AtLeast(size: nat, fields: seq<Field>)
    | Padded(size: nat, fields: seq<Field>)
    | Text(size: nat, textLength: nat, fields: seq<Field>)
    | NoData
    | ClockDescriptionData
    | MasterTable
    | Unchecked

  const MID_USER_DESCRIPTION := 0x0002
  const MID_CLOCK_DESCRIPTION := 0x0001
  const MID_UNICAST_MASTER_TABLE_NP := 0xC008

  ghost predicate RuleLayout(r: MgtRule) {
    match r
    case Exact(size, fs) => Layout(fs, 0, size)
    case AtLeast(size, fs) => Layout(fs, 0, size)
    case Padded(size, fs) => Layout(fs, 0, size)
    case Text(size, t, fs) => Layout(fs, 0, t) && t < size
    case _ => true
  }

  function MgtRuleOf(id: int): (r: MgtRule)
    ensures RuleLayout(r)
  {
    if id >= 0xC000 then NonPortableRule(id)
    else if id == MID_CLOCK_DESCRIPTION then ClockDescriptionData
    else if id == MID_USER_DESCRIPTION then Text(1, 0, [])
    else if id in {0x0003, 0x0004, 0x0005, 0x0007, 0x200D, 0x200E} then NoData
    else DataSetRule(id)
  }

  function DataSetRule(id: int): (r: MgtRule)
    ensures RuleLayout(r)
  {
    if id == 0x2000 /* DEFAULT_DATA_SET */ then Exact(20, [Field(2, 2), Field(7, 2)])
    else if id == 0x2001 /* CURRENT_DATA_SET */ then Exact(18, [Field(0, 2), Field(2, 8), Field(10, 8)])
    else if id == 0x2002 /* PARENT_DATA_SET */ then
      Exact(32, [Field(8, 2), Field(12, 2), Field(14, 4), Field(21, 2)])
    else if id == 0x2003 /* TIME_PROPERTIES_DATA_SET */ then Exact(4, [Field(0, 2)])
    else if id == 0x2004 /* PORT_DATA_SET */ then Exact(26, [Field(8, 2), Field(12, 8)])
    else if id == 0x201F /* ALTERNATE_TIME_OFFSET_NAME */ then Text(2, 1, [])
    else if id == 0x2021 /* ALTERNATE_TIME_OFFSET_PROPERTIES */ then
      Exact(16, [Field(1, 4), Field(5, 4), Field(9, 2), Field(11, 4)])
    else Unchecked
  }

  function NonPortableRule(id: int): (r: MgtRule)
    ensures RuleLayout(r)
  {
    if id == 0xC000 /* TIME_STATUS_NP */ then Exact(50, TimeStatusFields())
    else if id == 0xC001 /* GRANDMASTER_SETTINGS_NP */ then Exact(8, [Field(2, 2), Field(4, 2)])
    else if id == 0xC002 /* PORT_DATA_SET_NP */ then Exact(8, [Field(0, 4), Field(4, 4)])
    else if id == 0xC003 /* SUBSCRIBE_EVENTS_NP */ then Exact(66, [Field(0, 2)])
    else if id == 0xC004 /* PORT_PROPERTIES_NP */ then Text(13, 12, [Field(8, 2)])
    else if id == 0xC005 /* PORT_STATS_NP */ then Padded(266, [Field(8, 2)])
    else if id == 0xC007 /* PORT_SERVICE_STATS_NP */ then Padded(90, [Field(8, 2)])
    else if id == MID_UNICAST_MASTER_TABLE_NP then MasterTable
    else if id == 0xC009 /* PORT_HWCLOCK_NP */ then Padded(16, [Field(8, 2), Field(10, 4)])
    else if id == 0xC00A /* POWER_PROFILE_SETTINGS_NP */ then AtLeast(16, PowerProfileFields())
    else if id == 0xC00B /* CMLDS_INFO_NP */ then AtLeast(16, [Field(0, 8), Field(8, 4), Field(12, 4)])
    else Unchecked
  }

  function TimeStatusFields(): (r: seq<Field>)
    ensures Layout(r, 0, 50)
  {
    [Field(0, 8), Field(8, 8), Field(16, 4), Field(20, 4), Field(24, 2),
     Field(26, 2), Field(28, 8), Field(36, 2), Field(38, 4)]
  }

  function PowerProfileFields(): (r: seq<Field>)
    ensures Layout(r, 0, 16)
  {
    [Field(0, 2), Field(2, 2), Field(4, 4), Field(8, 4), Field(12, 4)]
  }

  /** The entries of a unicast master table: 22 bytes each, and then an address of the stated length. */
  const MASTER_ENTRY := 22

  function EntryFields(p: nat): seq<Field> {
    [Field(p + 8, 2), Field(p + 12, 2), Field(p + 18, 2), Field(p + 20, 2)]
  }

  function Entries(net: bool, b: seq<Byte>, p: nat, limit: nat, count: nat): (w: Walk)
    requires p <= limit <= |b|
    ensures w.Walk? ==> Layout(w.fields, p, limit)
    decreases count
  {
    if count == 0 then Walk([], NoExtra)
    else if limit < p + MASTER_ENTRY then BadLength
    else
      var next := p + MASTER_ENTRY + Get16(net, b, p + 20);
      if limit < next then BadLength
      else
        var rest := Entries(net, b, next, limit, count - 1);
        if rest.BadLength? then BadLength else Walk(EntryFields(p) + rest.fields, NoExtra)
  }

  /** Past a text with its length byte at p; beyond limit when even that byte is. */
  function AfterText(b: seq<Byte>, p: nat, limit: nat): (q: nat)
    requires limit <= |b|
    ensures q > p || q == limit + 1
  {
    if limit < p + 1 then limit + 1 else p + 1 + b[p] as int
  }

  /** Past an address with its 16-bit length at p; beyond limit when the length is out of reach or too large. */
  function AfterAddress(net: bool, b: seq<Byte>, p: nat, limit: nat): (q: nat)
    requires limit <= |b|
    ensures q > p || q == limit + 1
  {
    if limit < p + 2 || Get16(net, b, p) > TRANSPORT_ADDR_LEN then limit + 1 else p + 2 + Get16(net, b, p)
  }

  /** A clock description: texts and addresses of variable length, one after the other. */
  function Description(net: bool, b: seq<Byte>, d: nat, limit: nat): (w: Walk)
    requires d <= limit <= |b|
    ensures w.Walk? ==> Layout(w.fields, d, limit) && w.extra.ClockDescription?
  {
    var protocol := d + 2;
    var physical := AfterText(b, protocol, limit);
    var address := AfterAddress(net, b, physical, limit);
    var manufacturer := AfterAddress(net, b, address + 2, limit);
    var product := manufacturer + 4;
    var revision := AfterText(b, product, limit);
    var user := AfterText(b, revision, limit);
    var profile := AfterText(b, user, limit);
    if limit < profile + 6 || PadEven(profile + 6 - d) != limit - d then BadLength
    else
      Walk([Field(d, 2), Field(physical, 2), Field(address, 2), Field(address + 2, 2)],
           ClockDescription(d, protocol, physical, address, manufacturer, product, revision, user, profile))
  }

  function MgtWalk(net: bool, b: seq<Byte>, d: nat, limit: nat, id: int): (w: Walk)
    requires d <= limit <= |b|
    ensures w.Walk? ==> Layout(w.fields, d, limit)
  {
    var len := limit - d;
    match MgtRuleOf(id)
    case Exact(size, fs) =>
      if len != size then BadLength else LayoutAt(d, fs, 0, size, limit); Walk(At(d, fs), NoExtra)
    case AtLeast(size, fs) =>
      if len < size then BadLength else LayoutAt(d, fs, 0, size, limit); Walk(At(d, fs), NoExtra)
    case Padded(size, fs) =>
      if len != PadEven(size) then BadLength else LayoutAt(d, fs, 0, size, limit); Walk(At(d, fs), NoExtra)
    case Text(size, t, fs) =>
      if len < size || len != PadEven(size + b[d + t] as int) then BadLength
      else LayoutAt(d, fs, 0, t, limit);
           Walk(At(d, fs), if id == MID_USER_DESCRIPTION then UserDescription(d) else NoExtra)
    case NoData => if len != 0 then BadLength else Walk([], NoExtra)
    case ClockDescriptionData => Description(net, b, d, limit)
    case MasterTable =>
      if len < 2 then BadLength
      else
        var w := Entries(net, b, d + 2, limit, Get16(net, b, d));
        if w.BadLength? then BadLength else Walk([Field(d, 2)] + w.fields, NoExtra)
    case Unchecked => Walk([], NoExtra)
  }

  // ----- the other kinds

  datatype OrgRule = NoRule | OrgRule(size: nat, fields: seq<Field>)

  function OrgRuleOf(id: seq<Byte>, subtype: seq<Byte>): (r: OrgRule)
    requires |id| == 3 && |subtype| == 3
    ensures r.OrgRule? ==> Layout(r.fields, 10, r.size)
  {
    if subtype[0] != 0 || subtype[1] != 0 then NoRule
    else if id == IEEE8021_ID && subtype[2] == 1 then
      OrgRule(32, [Field(10, 4), Field(14, 2), Field(16, 2), Field(18, 8), Field(26, 2), Field(28, 4)])
    else if id == IEEE8021_ID && subtype[2] == 2 then OrgRule(16, [])
    else if id == ITU_T_ID && subtype[2] == 2 then OrgRule(22, [Field(10, 8), Field(18, 2), Field(20, 2)])
    else if id == IEEE_C37_238_ID && (subtype[2] == 1 || subtype[2] == 2) then
      OrgRule(22, [Field(10, 2), Field(12, 4), Field(16, 4)])
    else NoRule
  }

  /** ANNOUNCE, SYNC, DELAY_RESP or PDELAY_RESP in the upper nibble. */
  predicate UnicastMessageTypeValid(messageType: Byte) {
    messageType / 16 in {0xB, 0x0, 0x9, 0x3}
  }

  /** The array length test of the source, in 64-bit unsigned arithmetic. */
  predicate ArrayInvalid(length: nat, base: nat, item: nat)
    requires item > 0
  {
    var count := ((length - base) % 0x1_0000_0000_0000_0000) / item;
    length != (base + count * item) % 0x1_0000_0000_0000_0000
  }

  const DELAY_RECORD := 30
  const RX_SYNC_RECORD := 34
  const RECORD_BASE := 10

  /** Wrapping below zero never passes for a valid length: the test is exact for both record sizes. */
  lemma ArrayTestExact(length: nat, item: nat)
    requires length < 0x1_0000 && length % 2 == 0 && (item == DELAY_RECORD || item == RX_SYNC_RECORD)
    ensures !ArrayInvalid(length, RECORD_BASE, item) <==> RECORD_BASE <= length && (length - RECORD_BASE) % item == 0
  {
    if item == DELAY_RECORD {
      DelayArrayTestExact(length);
    } else {
      RxSyncArrayTestExact(length);
    }
  }

  lemma DelayArrayTestExact(length: nat)
    requires length < 0x1_0000 && length % 2 == 0
    ensures !ArrayInvalid(length, RECORD_BASE, DELAY_RECORD)
            <==> RECORD_BASE <= length && (length - RECORD_BASE) % DELAY_RECORD == 0
  {
  }

  lemma RxSyncArrayTestExact(length: nat)
    requires length < 0x1_0000 && length % 2 == 0
    ensures !ArrayInvalid(length, RECORD_BASE, RX_SYNC_RECORD)
            <==> RECORD_BASE <= length && (length - RECORD_BASE) % RX_SYNC_RECORD == 0
  {
    if length < RECORD_BASE {
      var wrapped := (length - RECORD_BASE) % 0x1_0000_0000_0000_0000;
      assert wrapped == 542551296285575047 * 34 + (8 + length);
      assert wrapped / 34 == 542551296285575047;
    }
  }

  function DelayRecord(): (r: seq<Field>)
    ensures Layout(r, 0, DELAY_RECORD)
  {
    [Field(0, 2), Field(2, 2), Field(4, 4), Field(8, 4), Field(12, 8), Field(20, 2), Field(22, 4), Field(26, 4)]
  }

  function RxSyncRecord(): (r: seq<Field>)
    ensures Layout(r, 0, RX_SYNC_RECORD)
  {
    [Field(0, 2), Field(2, 2), Field(4, 4), Field(8, 4), Field(12, 8), Field(20, 4),
     Field(24, 2), Field(26, 4), Field(30, 4)]
  }

  function Records(p: nat, count: nat, size: nat, record: seq<Field>): (r: seq<Field>)
    requires Layout(record, 0, size)
    ensures Layout(r, p, p + count * size)
    decreases count
  {
    if count == 0 then []
    else
      LayoutAt(p, record, 0, size, p + size);
      assert p + size + (count - 1) * size == p + count * size;
      var rest := Records(p + size, count - 1, size, record);
      LayoutJoin(At(p, record), rest, p, p + size, p + count * size);
      At(p, record) + rest
  }

  function RecordsWalk(o: nat, length: nat, size: nat, record: seq<Field>): (w: Walk)
    requires Layout(record, 0, size) && length % 2 == 0
    requires size == DELAY_RECORD || size == RX_SYNC_RECORD
    requires length < 0x1_0000
    ensures w.Walk? ==> Layout(w.fields, o + 4, o + 4 + length)
  {
    if ArrayInvalid(length, RECORD_BASE, size) then BadLength
    else
      ArrayTestExact(length, size);
      var count := (length - RECORD_BASE) / size;
      assert count * size == length - RECORD_BASE;
      Walk([Field(o + 12, 2)] + Records(o + 14, count, size, record), NoExtra)
  }

  const FOOT_FIELDS: seq<Field> :=
    [Field(8, 2), Field(12, 2), Field(14, 4), Field(21, 2), Field(32, 2), Field(34, 8), Field(42, 8),
     Field(50, 2), Field(54, 2), Field(56, 4), Field(60, 4)]

  function AddressLength(networkProtocol: int): int {
    if networkProtocol == 1 then 4 else if networkProtocol == 2 then 16 else if networkProtocol == 3 then 6 else -1
  }

  /** The network synchronization monitor response: a head, an address, a foot. */
  function NsmWalk(net: bool, b: seq<Byte>, o: nat, length: nat): (w: Walk)
    requires o + 4 + length <= |b|
    ensures w.Walk? ==> Layout(w.fields, o + 4, o + 4 + length)
  {
    if length < 70 then BadLength
    else
      var addressLength := Get16(net, b, o + 8);
      if addressLength != AddressLength(Get16(net, b, o + 6)) || length != 70 + addressLength then BadLength
      else
        var foot := o + 10 + addressLength;
        NsmLayout(o, foot, o + 4 + length);
        Walk([Field(o + 6, 2), Field(o + 8, 2)] + At(foot, FOOT_FIELDS), Foot(foot))
  }

  lemma NsmLayout(o: nat, foot: nat, hi: nat)
    requires o + 10 <= foot && foot + 64 <= hi
    ensures Layout([Field(o + 6, 2), Field(o + 8, 2)] + At(foot, FOOT_FIELDS), o + 4, hi)
  {
    hide At;
    FootLayout();
    LayoutAt(foot, FOOT_FIELDS, 0, 64, hi);
    LayoutJoin([Field(o + 6, 2), Field(o + 8, 2)], At(foot, FOOT_FIELDS), o + 4, foot, hi);
  }

  lemma FootLayout()
    ensures Layout(FOOT_FIELDS, 0, 64)
  {
  }

  function OrgWalk(b: seq<Byte>, o: nat, length: nat): (w: Walk)
    requires o + 4 + length <= |b|
    ensures w.Walk? ==> Layout(w.fields, o + 4, o + 4 + length)
  {
    if length < 6 then BadLength
    else
      match OrgRuleOf(b[o + 4..o + 7], b[o + 7..o + 10])
      case NoRule => Walk([], NoExtra)
      case OrgRule(size, fs) =>
        if length + TLV_HEADER != size then BadLength
        else
          LayoutAt(o, fs, 10, size, o + size);
          LayoutWiden(At(o, fs), o + 10, o + size, o + 4, o + size);
          Walk(At(o, fs), NoExtra)
  }

  /**
   * The fields in the value of the TLV at offset o, or BadLength where tlv_post_recv reports -EBADMSG. Type and
   * length come in host order: both directions have them that way when they treat the value.
   */
  function BodyWalk(net: bool, b: seq<Byte>, o: nat, kind: int, length: nat): (w: Walk)
    requires o + TLV_HEADER + length <= |b| && length < 0x1_0000 && length % 2 == 0
    ensures w.Walk? ==> Layout(w.fields, o + TLV_HEADER, o + TLV_HEADER + length)
  {
    var end := o + TLV_HEADER + length;
    if kind == TLV_MANAGEMENT then
      if length < 2 then BadLength
      else if length == 2 then Walk([Field(o + 4, 2)], NoExtra)
      else
        var w := MgtWalk(net, b, o + 6, end, Get16(net, b, o + 4));
        if w.BadLength? then BadLength else Walk([Field(o + 4, 2)] + w.fields, w.extra)
    else if kind == TLV_MANAGEMENT_ERROR_STATUS then
      if length < 8 then BadLength else Walk([Field(o + 4, 2), Field(o + 6, 2)], NoExtra)
    else if kind == TLV_ORGANIZATION_EXTENSION then OrgWalk(b, o, length)
    else if kind == TLV_REQUEST_UNICAST_TRANSMISSION || kind == TLV_GRANT_UNICAST_TRANSMISSION then
      if length < (if kind == TLV_REQUEST_UNICAST_TRANSMISSION then 6 else 8) || !UnicastMessageTypeValid(b[o + 4])
      then BadLength else Walk([Field(o + 6, 4)], NoExtra)
    else if kind == TLV_CANCEL_UNICAST_TRANSMISSION || kind == TLV_ACKNOWLEDGE_CANCEL_UNICAST_TRANSMISSION then
      if length < 2 || !UnicastMessageTypeValid(b[o + 4]) then BadLength else Walk([], NoExtra)
    else if kind == TLV_PATH_TRACE then
      if ArrayInvalid(length, 0, 8) then BadLength else Walk([], NoExtra)
    else if kind == TLV_ALTERNATE_TIME_OFFSET_INDICATOR then
      if length < 16 || length < 16 + b[o + 19] as int then BadLength
      else Walk([Field(o + 5, 4), Field(o + 9, 4), Field(o + 13, 2), Field(o + 15, 4)], NoExtra)
    else if kind == TLV_PTPMON_RESP then NsmWalk(net, b, o, length)
    else if kind == TLV_SLAVE_RX_SYNC_TIMING_DATA then RecordsWalk(o, length, RX_SYNC_RECORD, RxSyncRecord())
    else if kind == TLV_SLAVE_DELAY_TIMING_DATA_NP then RecordsWalk(o, length, DELAY_RECORD, DelayRecord())
    else if kind == TLV_AUTHENTICATION then
      if length < 10 then BadLength else Walk([Field(o + 6, 4)], NoExtra)
    else Walk([], NoExtra)
  }
}
