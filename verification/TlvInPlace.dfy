/** Conversion of one TLV in the message buffer (tlv.c): tlv_post_recv and tlv_pre_send. */
module TlvInPlace {
  import opened Bytes
  import opened Tlv
  import opened TlvSurvival

  /** A converted 16-bit field reads in the new byte order as it did in the old one. */
  lemma ConvertedRead(raw: seq<Byte>, fs: seq<Field>, k: nat)
    requires Layout(fs, 0, |raw|) && k < |fs| && fs[k].len == 2
    ensures forall net: bool :: Get16(!net, FlipAll(raw, fs), fs[k].off) == Get16(net, raw, fs[k].off)
  {
    FlipAllField(raw, fs, k);
    Get16Flipped(raw, FlipAll(raw, fs), fs[k]);
  }

  /** One step over a master table: the address length survives, the rest of the table is not touched. */
  lemma OneEntry(net: bool, b: seq<Byte>, p: nat, limit: nat, n: nat)
    requires n > 0 && p + MASTER_ENTRY <= limit <= |b|
    ensures Layout(EntryFields(p), p, p + MASTER_ENTRY)
    ensures var c, next := FlipAll(b, EntryFields(p)), p + MASTER_ENTRY + Get16(net, b, p + 20);
            && Get16(!net, c, p + 20) == Get16(net, b, p + 20)
            && (next <= limit ==>
                  var rest := Entries(net, c, next, limit, n - 1);
                  && Entries(net, b, p, limit, n).Walk? == rest.Walk?
                  && (rest.Walk? ==> FlipAll(b, Entries(net, b, p, limit, n).fields) == FlipAll(c, rest.fields)))
  {
    hide FieldFlipped, Layout;
    var fs := EntryFields(p);
    var c, next := FlipAll(b, fs), p + MASTER_ENTRY + Get16(net, b, p + 20);
    EntryLayout(p, |b|);
    ConvertedRead(b, fs, 3);
    if next <= limit {
      forall i | next <= i < limit
        ensures c[i] == b[i]
      {
        EntryFree(p, i);
        FlipAllFree(b, fs, i);
      }
      assert SameBytes(b, c, next, limit);
      EntriesLocal(net, b, c, next, limit, n - 1);
      var rest := Entries(net, b, next, limit, n - 1);
      if rest.Walk? {
        LayoutFits(rest.fields, next, limit, |b|);
        FlipAllAppend(b, fs, rest.fields);
      }
    }
  }

  lemma EntryLayout(p: nat, hi: nat)
    requires p + MASTER_ENTRY <= hi
    ensures Layout(EntryFields(p), p, p + MASTER_ENTRY) && Layout(EntryFields(p), 0, hi)
  {
  }

  lemma EntryFree(p: nat, i: nat)
    requires p + MASTER_ENTRY <= i
    ensures Free(EntryFields(p), i)
  {
  }

  lemma LayoutFits(fs: seq<Field>, lo: nat, hi: nat, n: nat)
    requires Layout(fs, lo, hi) && hi <= n
    ensures forall k :: 0 <= k < |fs| ==> fs[k].off + fs[k].len <= n
  {
  }

  /** Converts the entries of a received master table, reading each address length after its conversion. */
  method EntriesPostRecv(a: array<Byte>, start: nat, limit: nat, count: nat) returns (ok: bool)
    requires start <= limit <= a.Length
    modifies a
    ensures var w := Entries(true, old(a[..]), start, limit, count);
            ok == w.Walk? && (ok ==> a[..] == FlipAll(old(a[..]), w.fields))
  {
    hide FlipAll;
    ghost var full := Entries(true, a[..], start, limit, count);
    var p, n := start, count;
    while n > 0
      invariant start <= p <= limit
      invariant var rest := Entries(true, a[..], p, limit, n);
                && full.Walk? == rest.Walk?
                && (full.Walk? ==> FlipAll(old(a[..]), full.fields) == FlipAll(a[..], rest.fields))
    {
      if limit < p + MASTER_ENTRY {
        return false;
      }
      OneEntry(true, a[..], p, limit, n);
      FlipAllInPlace(a, EntryFields(p));
      var next := p + MASTER_ENTRY + Get16(false, a[..], p + 20);
      if limit < next {
        return false;
      }
      p, n := next, n - 1;
    }
    NothingFlipped(a[..]);
    return true;
  }

  /** Converts the entries of a master table to send, reading each address length before its conversion. */
  method EntriesPreSend(a: array<Byte>, start: nat, limit: nat, count: nat)
    requires start <= limit <= a.Length
    requires Entries(false, a[..], start, limit, count).Walk?
    modifies a
    ensures a[..] == FlipAll(old(a[..]), Entries(false, old(a[..]), start, limit, count).fields)
  {
    hide FlipAll;
    ghost var full := Entries(false, a[..], start, limit, count);
    var p, n := start, count;
    while n > 0
      invariant start <= p <= limit
      invariant var rest := Entries(false, a[..], p, limit, n);
                rest.Walk? && FlipAll(old(a[..]), full.fields) == FlipAll(a[..], rest.fields)
    {
      var next := p + MASTER_ENTRY + Get16(false, a[..], p + 20);
      OneEntry(false, a[..], p, limit, n);
      FlipAllInPlace(a, EntryFields(p));
      p, n := next, n - 1;
    }
    NothingFlipped(a[..]);
  }

  lemma NothingFlipped(b: seq<Byte>)
    ensures FlipAll(b, []) == b
  {
  }

  /** Converts count records of the same shape; sending and receiving differ in nothing but the direction. */
  method ConvertRecords(a: array<Byte>, start: nat, count: nat, size: nat, record: seq<Field>)
    requires Layout(record, 0, size) && start + count * size <= a.Length
    modifies a
    ensures a[..] == FlipAll(old(a[..]), Records(start, count, size, record))
  {
    hide FlipAll, Layout;
    LayoutFits(Records(start, count, size, record), start, start + count * size, a.Length);
    var p: nat, n: nat := start, count;
    while n > 0
      invariant p + n * size <= a.Length
      invariant forall k :: 0 <= k < |Records(p, n, size, record)| ==>
                  Records(p, n, size, record)[k].off + Records(p, n, size, record)[k].len <= a.Length
      invariant FlipAll(old(a[..]), Records(start, count, size, record)) == FlipAll(a[..], Records(p, n, size, record))
    {
      OneRecord(a[..], p, n, size, record);
      FlipAllInPlace(a, At(p, record));
      p, n := p + size, n - 1;
    }
    NothingFlipped(a[..]);
  }

  lemma OneRecord(b: seq<Byte>, p: nat, n: nat, size: nat, record: seq<Field>)
    requires n > 0 && Layout(record, 0, size) && p + n * size <= |b|
    ensures p + size <= p + n * size && p + size + (n - 1) * size == p + n * size
    ensures forall k :: 0 <= k < |At(p, record)| ==> At(p, record)[k].off + At(p, record)[k].len <= |b|
    ensures var rest := Records(p + size, n - 1, size, record);
            forall k :: 0 <= k < |rest| ==> rest[k].off + rest[k].len <= |b|
    ensures FlipAll(b, Records(p, n, size, record))
            == FlipAll(FlipAll(b, At(p, record)), Records(p + size, n - 1, size, record))
  {
    hide FlipAll;
    var rest := Records(p + size, n - 1, size, record);
    NextRecord(p, n, size);
    LayoutAt(p, record, 0, size, p + size);
    LayoutFits(At(p, record), p, p + size, |b|);
    LayoutFits(rest, p + size, p + n * size, |b|);
    FlipAllAppend(b, At(p, record), rest);
  }

  lemma NextRecord(p: nat, n: nat, size: nat)
    requires n > 0
    ensures p + size <= p + n * size && p + size + (n - 1) * size == p + n * size
  {
  }

  /** The addresses of a clock description, converted; the product description follows behind them. */
  method DescriptionHead(a: array<Byte>, d: nat, limit: nat)
    returns (ok: bool, physical: nat, address: nat, product: nat)
    requires d <= limit <= a.Length
    modifies a
    ensures var raw := old(a[..]);
            var physical' := AfterText(raw, d + 2, limit);
            var address' := AfterAddress(true, raw, physical', limit);
            var product' := AfterAddress(true, raw, address' + 2, limit) + 4;
            var fs := [Field(d, 2), Field(physical, 2), Field(address, 2), Field(address + 2, 2)];
            && (ok ==> && physical == physical' && address == address' && product == product'
                       && d + 2 <= physical && physical + 2 <= address && address + 4 <= limit
                       && address + 4 <= product && Layout(fs, d, address + 4)
                       && a[..] == FlipAll(raw, fs))
            && (!ok ==> limit < product')
  {
    hide FlipAll, Layout;
    ghost var raw := a[..];
    ok, physical, address, product := false, 0, 0, 0;
    if limit < d + 2 {
      return;
    }
    FlipAllInPlace(a, [Field(d, 2)]);
    ClockTypeLayout(d, limit);
    BehindFields(raw, [Field(d, 2)], d + 2, d + 2, limit);
    physical := AfterText(a[..], d + 2, limit);
    if limit < physical + 2 {
      return;
    }
    FlipAllInPlace(a, [Field(physical, 2)]);
    PhysicalLayout(d, physical, a.Length);
    FlipAllAppend(raw, [Field(d, 2)], [Field(physical, 2)]);
    ghost var two := [Field(d, 2)] + [Field(physical, 2)];
    ConvertedRead(raw, two, 1);
    var n := Get16(false, a[..], physical);
    address := physical + 2 + n;
    if n > TRANSPORT_ADDR_LEN || limit < address + 4 {
      return;
    }
    FlipAllInPlace(a, [Field(address, 2), Field(address + 2, 2)]);
    AddressLayout(d, physical, address, a.Length);
    FlipAllAppend(raw, two, [Field(address, 2), Field(address + 2, 2)]);
    ghost var four := two + [Field(address, 2), Field(address + 2, 2)];
    assert four == [Field(d, 2), Field(physical, 2), Field(address, 2), Field(address + 2, 2)];
    ConvertedRead(raw, four, 3);
    n := Get16(false, a[..], address + 2);
    if n > TRANSPORT_ADDR_LEN {
      return;
    }
    product := address + 4 + n + 4;
    ok := true;
  }

  lemma ClockTypeLayout(d: nat, limit: nat)
    requires d + 2 <= limit
    ensures Layout([Field(d, 2)], 0, d + 2)
  {
  }

  lemma PhysicalLayout(d: nat, physical: nat, hi: nat)
    requires d + 2 <= physical && physical + 2 <= hi
    ensures Layout([Field(d, 2)] + [Field(physical, 2)], 0, hi)
  {
  }

  lemma AddressLayout(d: nat, physical: nat, address: nat, hi: nat)
    requires d + 2 <= physical && physical + 2 <= address && address + 4 <= hi
    ensures var fs := [Field(d, 2), Field(physical, 2), Field(address, 2), Field(address + 2, 2)];
            Layout(fs, d, address + 4) && Layout(fs, 0, hi) && Layout(fs, 0, address + 4)
  {
  }

  /** Converts a received clock description, checking as it goes that it stays within its data. */
  method DescriptionPostRecv(a: array<Byte>, d: nat, limit: nat) returns (ok: bool, extra: Extra)
    requires d <= limit <= a.Length
    modifies a
    ensures var w := Description(true, old(a[..]), d, limit);
            ok == w.Walk? && (ok ==> a[..] == FlipAll(old(a[..]), w.fields) && extra == w.extra)
  {
    hide FlipAll, AfterAddress;
    ghost var raw := a[..];
    extra := NoExtra;
    var physical, address, product: nat;
    ok, physical, address, product := DescriptionHead(a, d, limit);
    if ok {
      AddressLayout(d, physical, address, a.Length);
      BehindFields(raw, [Field(d, 2), Field(physical, 2), Field(address, 2), Field(address + 2, 2)],
                   address + 4, product, limit);
      var revision := AfterText(a[..], product, limit);
      var user := AfterText(a[..], revision, limit);
      var profile := AfterText(a[..], user, limit);
      ok := profile + 6 <= limit && PadEven(profile + 6 - d) == limit - d;
      extra := ClockDescription(d, d + 2, physical, address, product - 4, product, revision, user, profile);
    }
  }

  /** Texts behind all converted fields read as before. */
  lemma BehindFields(raw: seq<Byte>, fs: seq<Field>, hi: nat, p: nat, limit: nat)
    requires Layout(fs, 0, hi) && hi <= limit <= |raw| && hi <= p
    ensures forall q :: p <= q ==> AfterText(FlipAll(raw, fs), q, limit) == AfterText(raw, q, limit)
  {
    forall q | p <= q
      ensures AfterText(FlipAll(raw, fs), q, limit) == AfterText(raw, q, limit)
    {
      if q < limit {
        assert Free(fs, q);
        FlipAllFree(raw, fs, q);
      }
    }
  }

  /** Converts a received monitor response; the protocol decides the address length and so where the foot is. */
  method NsmPostRecv(a: array<Byte>, o: nat, length: nat) returns (ok: bool, extra: Extra)
    requires o + 4 + length <= a.Length
    modifies a
    ensures var w := NsmWalk(true, old(a[..]), o, length);
            ok == w.Walk? && (ok ==> a[..] == FlipAll(old(a[..]), w.fields) && extra == w.extra)
  {
    hide FlipAll;
    ghost var raw := a[..];
    ok, extra := false, NoExtra;
    if length < 70 {
      return;
    }
    var head := [Field(o + 6, 2), Field(o + 8, 2)];
    FlipAllInPlace(a, head);
    ConvertedRead(raw, head, 0);
    ConvertedRead(raw, head, 1);
    var addressLength := Get16(false, a[..], o + 8);
    if addressLength != AddressLength(Get16(false, a[..], o + 6)) || length != 70 + addressLength {
      return;
    }
    var foot := o + 10 + addressLength;
    FootFits(foot, o + 4 + length);
    FlipAllInPlace(a, At(foot, FOOT_FIELDS));
    FlipAllAppend(raw, head, At(foot, FOOT_FIELDS));
    ok, extra := true, Foot(foot);
  }

  lemma FootFits(foot: nat, hi: nat)
    requires foot + 64 <= hi
    ensures Layout(At(foot, FOOT_FIELDS), foot, hi)
  {
  }

  // ----- dispatch

  method MgtPostRecv(a: array<Byte>, d: nat, limit: nat, id: int) returns (ok: bool, extra: Extra)
    requires d <= limit <= a.Length
    modifies a
    ensures var w := MgtWalk(true, old(a[..]), d, limit, id);
            ok == w.Walk? && (ok ==> a[..] == FlipAll(old(a[..]), w.fields) && extra == w.extra)
  {
    hide FlipAll, Entries, Description;
    ok, extra := false, NoExtra;
    match MgtRuleOf(id)
    case ClockDescriptionData =>
      ok, extra := DescriptionPostRecv(a, d, limit);
    case MasterTable =>
      if limit - d >= 2 {
        ok := MasterTablePostRecv(a, d, limit);
      }
    case _ =>
      var w := MgtWalk(true, a[..], d, limit, id);
      if w.Walk? {
        FlipAllInPlace(a, w.fields);
        ok, extra := true, w.extra;
      }
  }

  method MasterTablePostRecv(a: array<Byte>, d: nat, limit: nat) returns (ok: bool)
    requires d + 2 <= limit <= a.Length
    modifies a
    ensures var w := Entries(true, old(a[..]), d + 2, limit, Get16(true, old(a[..]), d));
            ok == w.Walk? && (ok ==> a[..] == FlipAll(old(a[..]), [Field(d, 2)] + w.fields))
  {
    hide FlipAll;
    ghost var raw := a[..];
    FlipInPlace(a, Field(d, 2));
    ghost var b := a[..];
    var size := Get16(false, a[..], d);
    assert size == Get16(true, raw, d);
    EntriesLocal(true, raw, b, d + 2, limit, size);
    ok := EntriesPostRecv(a, d + 2, limit, size);
    if ok {
      FlipAllAppend(raw, [Field(d, 2)], Entries(true, b, d + 2, limit, size).fields);
      FlipOne(raw, Field(d, 2));
    }
  }

  method MgtPreSend(a: array<Byte>, d: nat, limit: nat, id: int, extra: Extra)
    requires d <= limit <= a.Length
    requires MgtWalk(false, a[..], d, limit, id).Walk? && MgtWalk(false, a[..], d, limit, id).extra == extra
    modifies a
    ensures a[..] == FlipAll(old(a[..]), MgtWalk(false, old(a[..]), d, limit, id).fields)
  {
    hide FlipAll, Entries;
    match MgtRuleOf(id)
    case ClockDescriptionData =>
      FlipAllInPlace(a, [Field(extra.clockType, 2), Field(extra.physicalAddress, 2),
                         Field(extra.protocolAddress, 2), Field(extra.protocolAddress + 2, 2)]);
    case MasterTable =>
      MasterTablePreSend(a, d, limit);
    case _ =>
      FlipAllInPlace(a, MgtWalk(false, a[..], d, limit, id).fields);
  }

  /** The entries go first and the table size last, as the size is still needed in host order. */
  method MasterTablePreSend(a: array<Byte>, d: nat, limit: nat)
    requires d + 2 <= limit <= a.Length
    requires Entries(false, a[..], d + 2, limit, Get16(false, a[..], d)).Walk?
    modifies a
    ensures var raw := old(a[..]);
            a[..] == FlipAll(raw, [Field(d, 2)] + Entries(false, raw, d + 2, limit, Get16(false, raw, d)).fields)
  {
    hide FlipAll;
    ghost var raw := a[..];
    ghost var fs := Entries(false, raw, d + 2, limit, Get16(false, raw, d)).fields;
    EntriesPreSend(a, d + 2, limit, Get16(false, a[..], d));
    FlipInPlace(a, Field(d, 2));
    FlipAllCommute(raw, Field(d, 2), fs, limit);
  }

  /** The management ID is converted first, as the rest depends on it. */
  method ManagementPostRecv(a: array<Byte>, o: nat, length: nat) returns (ok: bool, extra: Extra)
    requires o + TLV_HEADER + length <= a.Length && length < 0x1_0000 && length % 2 == 0
    modifies a
    ensures var w := BodyWalk(true, old(a[..]), o, TLV_MANAGEMENT, length);
            ok == w.Walk? && (ok ==> a[..] == FlipAll(old(a[..]), w.fields) && extra == w.extra)
  {
    hide FlipAll, MgtWalk;
    ghost var raw, end := a[..], o + TLV_HEADER + length;
    ok, extra := length >= 2, NoExtra;
    if ok {
      FlipAllInPlace(a, [Field(o + 4, 2)]);
      if length > 2 {
        ghost var b := a[..];
        OneFieldRead(raw, o + 4);
        var id := Get16(false, a[..], o + 4);
        BehindOneField(raw, o + 4, end);
        MgtLocal(true, raw, b, o + 6, end, id);
        ok, extra := MgtPostRecv(a, o + 6, o + TLV_HEADER + length, id);
        if ok {
          FlipAllAppend(raw, [Field(o + 4, 2)], MgtWalk(true, raw, o + 6, end, id).fields);
        }
      }
    }
  }

  lemma OneFieldRead(b: seq<Byte>, x: nat)
    requires x + 2 <= |b|
    ensures forall net: bool :: Get16(!net, FlipAll(b, [Field(x, 2)]), x) == Get16(net, b, x)
  {
  }

  lemma BehindOneField(b: seq<Byte>, x: nat, end: nat)
    requires x + 2 <= end <= |b|
    ensures SameBytes(b, FlipAll(b, [Field(x, 2)]), x + 2, end)
  {
  }

  method ManagementPreSend(a: array<Byte>, o: nat, length: nat, extra: Extra)
    requires o + TLV_HEADER + length <= a.Length && length < 0x1_0000 && length % 2 == 0
    requires var w := BodyWalk(false, a[..], o, TLV_MANAGEMENT, length); w.Walk? && w.extra == extra
    modifies a
    ensures a[..] == FlipAll(old(a[..]), BodyWalk(false, old(a[..]), o, TLV_MANAGEMENT, length).fields)
  {
    hide FlipAll, MgtWalk;
    ghost var raw, end := a[..], o + TLV_HEADER + length;
    if length > 2 {
      var id := Get16(false, a[..], o + 4);
      ghost var fs := MgtWalk(false, a[..], o + 6, end, id).fields;
      MgtPreSend(a, o + 6, o + TLV_HEADER + length, id, extra);
      FlipAllCommute(raw, Field(o + 4, 2), fs, end);
      FlipInPlace(a, Field(o + 4, 2));
    } else {
      FlipAllInPlace(a, [Field(o + 4, 2)]);
    }
  }

  /** Port number and records of a timing TLV, in either direction. */
  method ConvertTimingData(a: array<Byte>, o: nat, length: nat, size: nat, record: seq<Field>) returns (ok: bool)
    requires o + TLV_HEADER + length <= a.Length && length < 0x1_0000 && length % 2 == 0
    requires Layout(record, 0, size) && (size == DELAY_RECORD || size == RX_SYNC_RECORD)
    modifies a
    ensures var w := RecordsWalk(o, length, size, record);
            ok == w.Walk? && (ok ==> a[..] == FlipAll(old(a[..]), w.fields) && w.extra == NoExtra)
  {
    hide FlipAll;
    ghost var raw := a[..];
    ok := !ArrayInvalid(length, RECORD_BASE, size);
    if ok {
      ArrayTestExact(length, size);
      var count := (length - RECORD_BASE) / size;
      WholeRecords(length - RECORD_BASE, size);
      FlipAllInPlace(a, [Field(o + 12, 2)]);
      ConvertRecords(a, o + 14, count, size, record);
      LayoutFits(Records(o + 14, count, size, record), o + 14, o + 14 + count * size, a.Length);
      FlipAllAppend(raw, [Field(o + 12, 2)], Records(o + 14, count, size, record));
    }
  }

  lemma WholeRecords(n: nat, size: nat)
    requires size > 0 && n % size == 0
    ensures n / size * size == n
  {
  }

  method TlvPostRecv(a: array<Byte>, o: nat, kind: int, length: nat) returns (ok: bool, extra: Extra)
    requires o + TLV_HEADER + length <= a.Length && length < 0x1_0000 && length % 2 == 0
    modifies a
    ensures var w := BodyWalk(true, old(a[..]), o, kind, length);
            ok == w.Walk? && (ok ==> a[..] == FlipAll(old(a[..]), w.fields) && extra == w.extra)
  {
    hide FlipAll, RecordsWalk, NsmWalk, MgtWalk, OrgWalk;
    extra := NoExtra;
    if kind == TLV_MANAGEMENT {
      ok, extra := ManagementPostRecv(a, o, length);
    } else if kind == TLV_PTPMON_RESP {
      ok, extra := NsmPostRecv(a, o, length);
    } else if kind == TLV_SLAVE_RX_SYNC_TIMING_DATA {
      ok := ConvertTimingData(a, o, length, RX_SYNC_RECORD, RxSyncRecord());
    } else if kind == TLV_SLAVE_DELAY_TIMING_DATA_NP {
      ok := ConvertTimingData(a, o, length, DELAY_RECORD, DelayRecord());
    } else {
      var w := BodyWalk(true, a[..], o, kind, length);
      ok := w.Walk?;
      if ok {
        extra := w.extra;
        FlipAllInPlace(a, w.fields);
      }
    }
  }

  /** The sender relies on what it built: it repeats no check and follows the pointers of the descriptor. */
  method TlvPreSend(a: array<Byte>, o: nat, kind: int, length: nat, extra: Extra)
    requires o + TLV_HEADER + length <= a.Length && length < 0x1_0000 && length % 2 == 0
    requires var w := BodyWalk(false, a[..], o, kind, length); w.Walk? && w.extra == extra
    modifies a
    ensures a[..] == FlipAll(old(a[..]), BodyWalk(false, old(a[..]), o, kind, length).fields)
  {
    hide FlipAll, RecordsWalk, MgtWalk, OrgWalk;
    if kind == TLV_MANAGEMENT {
      ManagementPreSend(a, o, length, extra);
    } else if kind == TLV_PTPMON_RESP {
      FootFits(extra.foot, o + TLV_HEADER + length);
      FlipAllInPlace(a, [Field(o + 6, 2), Field(o + 8, 2)] + At(extra.foot, FOOT_FIELDS));
    } else if kind == TLV_SLAVE_RX_SYNC_TIMING_DATA {
      var _ := ConvertTimingData(a, o, length, RX_SYNC_RECORD, RxSyncRecord());
    } else if kind == TLV_SLAVE_DELAY_TIMING_DATA_NP {
      var _ := ConvertTimingData(a, o, length, DELAY_RECORD, DelayRecord());
    } else {
      FlipAllInPlace(a, BodyWalk(false, a[..], o, kind, length).fields);
    }
  }
}
