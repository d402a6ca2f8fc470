// Packets: header, packet TLVs and messages, and the buffer in which they are collected.
module Packet {
  import opened Basics
  import opened Rfc5444
  import opened AddrBlock
  import opened AddrTlv
  import opened AddrTlvReader

  // Packet flags, section 5.1 of RFC 5444.
  const PKT_SEQNO: byte := 0x08
  const PKT_TLV: byte := 0x04

  // ---- TLVs without index, for messages and packets ----

  // A TLV that fits the 16 bit length field.
  predicate WritableTlv(t: Tlv) {
    t.kind < 65536 && |t.value| < 65536
  }

  predicate WritableTlvs(ts: seq<Tlv>) {
    forall i :: 0 <= i < |ts| ==> WritableTlv(ts[i])
  }

  function PlainFlags(t: Tlv): byte {
    (if t.kind % 256 > 0 then TLV_TYPEEXT else 0) + LengthFlags(|t.value|)
  }

  // _write_tlv, with the index range 0 to 255
  function TlvBytes(t: Tlv): seq<byte>
    requires WritableTlv(t)
  {
    TypeBytes(t.kind, PlainFlags(t)) + LengthBytes(|t.value|) + t.value
  }

  function TlvsBytes(ts: seq<Tlv>): seq<byte>
    requires WritableTlvs(ts)
  {
    if ts == [] then [] else TlvBytes(ts[0]) + TlvsBytes(ts[1..])
  }

  // _calc_tlv_size
  function TlvSize(hasExtension: bool, length: nat): nat {
    2 + (if hasExtension then 1 else 0) + length + (if length > 255 then 2 else if length > 0 then 1 else 0)
  }

  lemma SizeRight(t: Tlv)
    requires WritableTlv(t)
    ensures |TlvBytes(t)| == TlvSize(t.kind % 256 > 0, |t.value|) > 0
  {
  }

  lemma {:induction false} TlvsConcat(a: seq<Tlv>, b: seq<Tlv>)
    requires WritableTlvs(a) && WritableTlvs(b)
    ensures WritableTlvs(a + b) && TlvsBytes(a + b) == TlvsBytes(a) + TlvsBytes(b)
  {
    hide TlvBytes, WritableTlv;
    if a == [] {
      assert a + b == b;
    } else {
      TlvsConcat(a[1..], b);
      assert (a + b)[1..] == a[1..] + b;
    }
  }

  lemma TlvsSnoc(a: seq<Tlv>, t: Tlv)
    requires WritableTlvs(a) && WritableTlv(t)
    ensures WritableTlvs(a + [t]) && TlvsBytes(a + [t]) == TlvsBytes(a) + TlvBytes(t)
  {
    TlvsConcat(a, [t]);
    assert [t][1..] == [];
  }

  // ---- reading them ----

  lemma PlainFlagBits(t: Tlv)
    ensures var f := PlainFlags(t);
      && HasFlag(f, TLV_TYPEEXT) == (t.kind % 256 > 0) && !HasFlag(f, TLV_SINGLE_IDX) && !HasFlag(f, TLV_MULTI_IDX)
      && HasFlag(f, TLV_VALUE) == (|t.value| > 0) && HasFlag(f, TLV_EXTVALUE) == (|t.value| > 255)
      && !HasFlag(f, TLV_MULTIVALUE)
  {
  }

  // Parsing the bytes of a TLV hands the same TLV to the consumers of index 0.
  lemma RoundTripTlv(buf: seq<byte>, p: nat, eob: nat, t: Tlv)
    requires WritableTlv(t) && At(buf, p, TlvBytes(t)) && p + |TlvBytes(t)| <= eob <= |buf|
    ensures var r := ParseTlv(buf, p, eob, 0);
      r.result == Okay && r.ptr == p + |TlvBytes(t)| && HandedOne(r.entry, buf, 0) == multiset{t}
  {
    hide At, HasFlag, PlainFlags, TypeBytes, LengthBytes, Area, ParseTlv, ParseLength, HandedOne;
    var f := PlainFlags(t);
    PlainFlagBits(t);
    var ty, le, v := TypeBytes(t.kind, f), LengthBytes(|t.value|), t.value;
    AtSplit(buf, p, ty + le, v);
    AtSplit(buf, p, ty, le);
    var q := p + |ty|;
    ReadType(buf, p, eob, t.kind, f, 0, ty);
    assert ParseIndexes(buf, Cursor(q, Okay), eob, 0, f, t.kind)
        == ParseLength(buf, Cursor(q, Okay), eob, f, t.kind, 0, 255);
    ReadLength(buf, q, eob, |v|, f, t.kind, le, 0, 255);
    AtSlice(buf, q + |le|, v);
    EntryHands(TlvEntry(t.kind, 0, 255, |v|, false, q + |le|), buf, t);
  }

  lemma EntryHands(e: TlvEntry, buf: seq<byte>, t: Tlv)
    requires e == TlvEntry(t.kind, 0, 255, |t.value|, false, e.value)
    requires e.value + |t.value| <= |buf| && buf[e.value..e.value + |t.value|] == t.value
    ensures HandedOne(e, buf, 0) == multiset{t}
  {
  }

  lemma NoTlv(buf: seq<byte>, p: nat, eob: nat)
    requires p <= eob <= |buf|
    ensures ParseTlvs(buf, p, p, eob, 0) == ParsedBlock(Okay, [], p) && HandedAll([], buf, 0) == multiset{}
  {
  }

  lemma FirstTlv(buf: seq<byte>, p: nat, end: nat, eob: nat)
    requires p < end <= eob <= |buf| && ParseTlv(buf, p, eob, 0).result == Okay
    requires ParseTlvs(buf, ParseTlv(buf, p, eob, 0).ptr, end, eob, 0).result == Okay
    ensures
      var first, r := ParseTlv(buf, p, eob, 0), ParseTlvs(buf, p, end, eob, 0);
      var rest := ParseTlvs(buf, first.ptr, end, eob, 0);
      && r.result == Okay && r.ptr == rest.ptr
      && HandedAll(r.entries, buf, 0) == HandedOne(first.entry, buf, 0) + HandedAll(rest.entries, buf, 0)
  {
    hide ParseTlv, HandedOne;
    var e := ParseTlv(buf, p, eob, 0).entry;
    var rest := ParseTlvs(buf, ParseTlv(buf, p, eob, 0).ptr, end, eob, 0);
    assert ([e] + rest.entries)[1..] == rest.entries;
  }

  lemma {:induction false} ReadTlvs(buf: seq<byte>, p: nat, end: nat, eob: nat, ts: seq<Tlv>)
    requires WritableTlvs(ts) && At(buf, p, TlvsBytes(ts)) && end == p + |TlvsBytes(ts)| <= eob <= |buf|
    ensures var r := ParseTlvs(buf, p, end, eob, 0);
      r.result == Okay && r.ptr == end && HandedAll(r.entries, buf, 0) == multiset(ts)
    decreases |ts|
  {
    hide At, TlvBytes, WritableTlv, ParseTlv, HandedOne, ParseTlvs, HandedAll;
    if ts != [] {
      var first := TlvBytes(ts[0]);
      SizeRight(ts[0]);
      AtSplit(buf, p, first, TlvsBytes(ts[1..]));
      RoundTripTlv(buf, p, eob, ts[0]);
      ReadTlvs(buf, p + |first|, end, eob, ts[1..]);
      FirstTlv(buf, p, end, eob);
      assert ts == [ts[0]] + ts[1..];
    } else {
      NoTlv(buf, p, eob);
    }
  }

  // The TLV block of a packet or a message gives its consumers the TLVs that have been written.
  lemma RoundTripTlvBlock(buf: seq<byte>, p: nat, eob: nat, ts: seq<Tlv>)
    requires WritableTlvs(ts) && |TlvsBytes(ts)| < 65536
    requires At(buf, p, LengthField(|TlvsBytes(ts)|) + TlvsBytes(ts)) && p + 2 + |TlvsBytes(ts)| <= eob <= |buf|
    ensures var r := ParseTlvBlock(buf, p, eob, 0);
      && r.result == Okay && r.ptr == p + 2 + |TlvsBytes(ts)| && HandedAll(r.entries, buf, 0) == multiset(ts)
  {
    hide At, TlvsBytes, HandedAll, ParseTlvs, WritableTlvs;
    var body, field := TlvsBytes(ts), LengthField(|TlvsBytes(ts)|);
    AtSplit(buf, p, field, body);
    AtIndex(buf, p, field, 0);
    AtIndex(buf, p, field, 1);
    ReadTlvs(buf, p + 2, p + 2 + |body|, eob, ts);
  }

  // ---- packets ----

  function PacketFlags(hasSeqno: bool, hasTlvs: bool): byte {
    (if hasSeqno then PKT_SEQNO else 0) + (if hasTlvs then PKT_TLV else 0)
  }

  function SeqnoBytes(hasSeqno: bool, seqno: nat): seq<byte>
    requires seqno < 65536
  {
    if hasSeqno then [seqno / 256, seqno % 256] else []
  }

  // The TLV block is left out when it is empty.
  function BlockOf(ts: seq<Tlv>): seq<byte>
    requires WritableTlvs(ts)
  {
    if ts == [] then [] else LengthField(|TlvsBytes(ts)|) + TlvsBytes(ts)
  }

  // A packet: header, TLV block, messages (section 5.1 of RFC 5444).
  function PacketBytes(hasSeqno: bool, seqno: nat, ts: seq<Tlv>, messages: seq<byte>): seq<byte>
    requires seqno < 65536 && WritableTlvs(ts)
  {
    [PacketFlags(hasSeqno, ts != [])] + SeqnoBytes(hasSeqno, seqno) + BlockOf(ts) + messages
  }

  datatype ParsedPacket =
    | ParsedPacket(hasSeqno: bool, seqno: nat, entries: seq<TlvEntry>, messages: nat)
    | TooLarge
    | UnsupportedVersion
    | BadPacket(result: Result)

  // rfc5444_reader_handle_packet, up to the messages
  function ParsePacket(buf: seq<byte>): ParsedPacket {
    if |buf| > 65535 then TooLarge
    else
      var eob := |buf|;
      var (first, c1) := GetU8(buf, Cursor(0, Okay), eob);
      if first / 16 != 0 then UnsupportedVersion
      else
        var hasSeqno := HasFlag(first, PKT_SEQNO);
        var (seqno, c2) := if hasSeqno then GetU16(buf, c1, eob) else (0, c1);
        if c2.result != Okay then BadPacket(c2.result)
        else if !HasFlag(first, PKT_TLV) then ParsedPacket(hasSeqno, seqno, [], c2.ptr)
        else
          var block := ParseTlvBlock(buf, c2.ptr, eob, 0);
          if block.result != Okay then BadPacket(block.result)
          else ParsedPacket(hasSeqno, seqno, block.entries, block.ptr)
  }

  // The reader gets the sequence number, the packet TLVs as a multiset, and the messages.
  lemma RoundTripPacket(buf: seq<byte>, hasSeqno: bool, seqno: nat, ts: seq<Tlv>, messages: seq<byte>)
    requires seqno < 65536 && WritableTlvs(ts) && buf == PacketBytes(hasSeqno, seqno, ts, messages) && |buf| <= 65535
    ensures var r := ParsePacket(buf);
      && r.ParsedPacket? && r.hasSeqno == hasSeqno && (hasSeqno ==> r.seqno == seqno)
      && HandedAll(r.entries, buf, 0) == multiset(ts)
      && r.messages <= |buf| && buf[r.messages..] == messages
  {
    hide TlvsBytes, HandedAll, ParseTlvBlock, WritableTlvs, LengthField, At;
    var flags, sn, block := PacketFlags(hasSeqno, ts != []), SeqnoBytes(hasSeqno, seqno), BlockOf(ts);
    PacketParts(buf, flags, sn, block, messages);
    PacketFlagBits(hasSeqno, ts != []);
    if hasSeqno {
      AtIndex(buf, 1, sn, 0);
      AtIndex(buf, 1, sn, 1);
    }
    if ts == [] {
      NothingHanded(buf);
    } else {
      FieldBytes(|TlvsBytes(ts)|);
      AtLength(buf, 1 + |sn|, block);
      RoundTripTlvBlock(buf, 1 + |sn|, |buf|, ts);
    }
  }

  lemma PacketFlagBits(hasSeqno: bool, hasTlvs: bool)
    ensures var f := PacketFlags(hasSeqno, hasTlvs);
      f / 16 == 0 && HasFlag(f, PKT_SEQNO) == hasSeqno && HasFlag(f, PKT_TLV) == hasTlvs
  {
  }

  lemma PacketParts(buf: seq<byte>, flags: byte, sn: seq<byte>, block: seq<byte>, messages: seq<byte>)
    requires buf == [flags] + sn + block + messages
    ensures |buf| > 0 && buf[0] == flags && At(buf, 1, sn) && At(buf, 1 + |sn|, block)
    ensures 1 + |sn| + |block| <= |buf| && buf[1 + |sn| + |block|..] == messages
  {
    var whole := [flags] + sn + block + messages;
    assert buf[0..|buf|] == buf;
    AtSplit(buf, 0, [flags] + sn + block, messages);
    AtSplit(buf, 0, [flags] + sn, block);
    AtSplit(buf, 0, [flags], sn);
  }

  lemma NothingHanded(buf: seq<byte>)
    ensures HandedAll([], buf, 0) == multiset{}
  {
  }
}
