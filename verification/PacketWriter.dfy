// The buffer in which a packet is collected and from which it is flushed.
module PacketWriter {
  import opened Basics
  import opened Rfc5444
  import opened AddrBlock
  import opened AddrTlv
  import opened AddrTlvReader
  import opened Packet

  datatype Code = Stored | MtuTooSmall

  lemma AtSame(a: seq<byte>, b: seq<byte>, p: nat, s: seq<byte>)
    requires At(a, p, s) && |a| == |b| && forall i :: p <= i < p + |s| ==> b[i] == a[i]
    ensures At(b, p, s)
  {
    assert b[p..p + |s|] == a[p..p + |s|];
  }

  lemma AtJoin(buf: seq<byte>, p: nat, a: seq<byte>, b: seq<byte>)
    requires At(buf, p, a) && At(buf, p + |a|, b)
    ensures At(buf, p, a + b)
  {
    assert buf[p..p + |a + b|] == buf[p..p + |a|] + buf[p + |a|..p + |a| + |b|];
  }

  lemma AtBelow(a: seq<byte>, b: seq<byte>, p: nat, s: seq<byte>, end: nat)
    requires At(a, p, s) && p + |s| <= end && |a| == |b| && forall i :: 0 <= i < end && i < |a| ==> b[i] == a[i]
    ensures At(b, p, s)
  {
    AtSame(a, b, p, s);
  }

  lemma AtEmpty(buf: seq<byte>, p: nat)
    requires p <= |buf|
    ensures At(buf, p, [])
  {
  }

  // The added TLVs, the TLVs set so far at the beginning of their room, and the messages.
  predicate Laid(buf: seq<byte>, h: nat, a: seq<byte>, t: seq<byte>, room: nat, m: seq<byte>) {
    At(buf, h, a) && At(buf, h + |a|, t) && |t| <= room && At(buf, h + |a| + room, m)
  }

  // Two buffers are equal except for the bytes at..at + n.
  predicate Except(a: seq<byte>, b: seq<byte>, at: nat, n: nat) {
    |a| == |b| && forall i :: 0 <= i < |a| && !(at <= i < at + n) ==> b[i] == a[i]
  }

  lemma LaidAdd(before: seq<byte>, after: seq<byte>, h: nat, a: seq<byte>, room: nat, x: seq<byte>)
    requires Laid(before, h, a, [], room, []) && h + |a| + |x| + room <= |before|
    requires Except(before, after, h + |a|, |x|) && At(after, h + |a|, x)
    ensures Laid(after, h, a + x, [], room, [])
  {
    AtBelow(before, after, h, a, h + |a|);
    AtJoin(after, h, a, x);
  }

  lemma LaidSet(before: seq<byte>, after: seq<byte>, h: nat, a: seq<byte>, t: seq<byte>, room: nat, m: seq<byte>,
                x: seq<byte>)
    requires Laid(before, h, a, t, room, m) && |t| + |x| <= room
    requires Except(before, after, h + |a| + |t|, |x|) && At(after, h + |a| + |t|, x)
    ensures Laid(after, h, a, t + x, room, m)
  {
    AtBelow(before, after, h, a, h + |a| + |t|);
    AtBelow(before, after, h + |a|, t, h + |a| + |t|);
    AtJoin(after, h + |a|, t, x);
    AtSame(before, after, h + |a| + room, m);
  }

  lemma LaidMessage(before: seq<byte>, after: seq<byte>, h: nat, a: seq<byte>, t: seq<byte>, room: nat, m: seq<byte>,
                    x: seq<byte>)
    requires Laid(before, h, a, t, room, m)
    requires Except(before, after, h + |a| + room + |m|, |x|) && At(after, h + |a| + room + |m|, x)
    ensures Laid(after, h, a, t, room, m + x)
  {
    var at := h + |a| + room + |m|;
    AtBelow(before, after, h, a, at);
    AtBelow(before, after, h + |a|, t, at);
    AtBelow(before, after, h + |a| + room, m, at);
    AtJoin(after, h + |a| + room, m, x);
  }

  // The header has been written, over at most h bytes.
  lemma LaidHeader(before: seq<byte>, after: seq<byte>, h: nat, a: seq<byte>, t: seq<byte>, room: nat, m: seq<byte>,
                   n: nat)
    requires Laid(before, h, a, t, room, m) && Except(before, after, 0, n) && n <= h
    ensures Laid(after, h, a, t, room, m)
  {
    AtSame(before, after, h, a);
    AtSame(before, after, h + |a|, t);
    AtSame(before, after, h + |a| + room, m);
  }

  function Whole(hd: seq<byte>, a: seq<byte>, t: seq<byte>, m: seq<byte>): seq<byte> {
    hd + a + t + m
  }

  // The messages have been moved down behind the TLVs; hd is the header as it has been written.
  lemma LaidPacket(before: seq<byte>, after: seq<byte>, hd: seq<byte>, h: nat, a: seq<byte>, t: seq<byte>, room: nat,
                   m: seq<byte>)
    requires Laid(before, h, a, t, room, m) && At(before, 0, hd)
    requires |hd| == h || (|hd| <= h && a == [] && t == [])
    requires Except(before, after, |hd| + |a| + |t|, |m|) && At(after, |hd| + |a| + |t|, m)
    ensures var n := |hd| + |a| + |t| + |m|;
      n <= |after| && after[..n] == Whole(hd, a, t, m)
  {
    var end := |hd| + |a| + |t|;
    AtBelow(before, after, 0, hd, end);
    if |hd| == h {
      AtBelow(before, after, h, a, end);
      AtBelow(before, after, h + |a|, t, end);
    } else {
      AtEmpty(after, |hd|);
    }
    AtJoin(after, 0, hd, a);
    AtJoin(after, 0, hd + a, t);
    AtJoin(after, 0, hd + a + t, m);
  }

  // The packet of added and set TLVs.
  function Bytes(hasSeqno: bool, seqno: nat, a: seq<Tlv>, t: seq<Tlv>, m: seq<byte>): seq<byte>
    requires seqno < 65536 && WritableTlvs(a) && WritableTlvs(t)
  {
    TlvsConcat(a, t);
    PacketBytes(hasSeqno, seqno, a + t, m)
  }

  class Buffer {
    const data: array<byte>
    var header: nat
    var added: nat
    var reserved: nat
    var used: nat
    var hasSeqno: bool
    var seqno: nat
    var messagesSize: nat
    var flushed: bool
    // the packets sent
    var sent: seq<seq<byte>>
    // what the buffer holds
    ghost var addedTlvs: seq<Tlv>
    ghost var setTlvs: seq<Tlv>
    ghost var messages: seq<byte>

    constructor (max: nat)
      requires 5 <= max <= 65535
      ensures Valid() && flushed && sent == [] && fresh(data) && data.Length == max
    {
      data := new byte[max](_ => 0);
      header, added, reserved, used, messagesSize := 0, 0, 0, 0, 0;
      hasSeqno, seqno, flushed, sent := false, 0, true, [];
      addedTlvs, setTlvs, messages := [], [], [];
    }

    // The limits that hold at any time.
    ghost predicate Limits()
      reads this
    {
      && 5 <= data.Length <= 65535 && seqno < 65536
      && used <= reserved && header + added + reserved + messagesSize <= data.Length
    }

    // While a packet is being collected: added TLVs, set TLVs, room for more set TLVs, messages.
    ghost predicate Holding()
      reads this, data
    {
      && Limits() && header == (if hasSeqno then 5 else 3)
      && WritableTlvs(addedTlvs) && WritableTlvs(setTlvs)
      && added == |TlvsBytes(addedTlvs)| && used == |TlvsBytes(setTlvs)| && messagesSize == |messages|
      && Laid(data[..], header, TlvsBytes(addedTlvs), TlvsBytes(setTlvs), reserved, messages)
    }

    ghost predicate Valid()
      reads this, data
    {
      Limits() && (flushed ==> messagesSize == 0) && (!flushed ==> Holding())
    }

    // The packet that a flush would send.
    ghost function Packet(): seq<byte>
      requires Holding()
      reads this, data
    {
      Bytes(hasSeqno, seqno, addedTlvs, setTlvs, messages)
    }

    // _rfc5444_writer_begin_packet, without post-processors; the callback sets the header
    method Begin(hasSeqno: bool, seqno: nat)
      requires Valid() && flushed && seqno < 65536
      modifies this
      ensures Valid() && !flushed && sent == old(sent)
      ensures addedTlvs == [] && setTlvs == [] && messages == [] && reserved == 0
      ensures this.hasSeqno == hasSeqno && this.seqno == seqno
    {
      added, reserved, used := 0, 0, 0;
      // a TLV block is assumed; its 2 bytes are subtracted later
      header := 1 + 2;
      this.hasSeqno, this.seqno := hasSeqno, seqno;
      if hasSeqno {
        header := header + 2;
      }
      addedTlvs, setTlvs, messages := [], [], [];
      flushed := false;
    }

    // memcpy into the buffer
    method Copy(at: nat, s: seq<byte>)
      requires at + |s| <= data.Length
      modifies data
      ensures At(data[..], at, s)
      ensures Except(old(data[..]), data[..], at, |s|)
    {
      forall i | 0 <= i < |s| {
        data[at + i] := s[i];
      }
      assert data[at..at + |s|] == s;
    }

    // _write_tlv: type, flags, extension, length, value
    method WriteTlv(at: nat, t: Tlv)
      requires WritableTlv(t) && at + |TlvBytes(t)| <= data.Length
      modifies data
      ensures At(data[..], at, TlvBytes(t))
      ensures Except(old(data[..]), data[..], at, |TlvBytes(t)|)
    {
      var flags := 0;
      if t.kind % 256 > 0 {
        flags := flags + TLV_TYPEEXT;
      }
      var length := |t.value|;
      if length > 255 {
        flags := flags + TLV_EXTVALUE;
      }
      if length > 0 {
        flags := flags + TLV_VALUE;
      }
      var bytes: seq<byte> := [t.kind / 256, flags];
      if t.kind % 256 > 0 {
        bytes := bytes + [t.kind % 256];
      }
      ghost var ty := bytes;
      var le: seq<byte> := [];
      if length > 255 {
        le := le + [length / 256];
      }
      if length > 0 {
        le := le + [length % 256];
        bytes := bytes + le + t.value;
      }
      assert bytes == TypeBytes(t.kind, PlainFlags(t)) + LengthBytes(|t.value|) + t.value;
      Copy(at, bytes);
    }

    // _rfc5444_tlv_writer_add, before any message has been stored
    method Add(t: Tlv) returns (r: Code)
      requires Valid() && !flushed && WritableTlv(t) && messages == [] && setTlvs == []
      modifies this`added, this`addedTlvs, data
      ensures Valid() && Holding()
      ensures r == Stored <==> header + old(added) + reserved + TlvSize(t.kind % 256 > 0, |t.value|) <= data.Length
      ensures addedTlvs == if r == Stored then old(addedTlvs) + [t] else old(addedTlvs)
    {
      hide TlvsBytes, TlvBytes, WritableTlv, WritableTlvs, TlvSize, Laid, Except, At;
      var s := TlvSize(t.kind % 256 != 0, |t.value|);
      if header + added + reserved + s > data.Length {
        // the TLV does not fit behind the others
        return MtuTooSmall;
      }
      SizeRight(t);
      TlvsSnoc(addedTlvs, t);
      NoTlvs();
      ghost var before := data[..];
      WriteTlv(header + added, t);
      LaidAdd(before, data[..], header, TlvsBytes(addedTlvs), reserved, TlvBytes(t));
      added := added + s;
      addedTlvs := addedTlvs + [t];
      r := Stored;
    }

    // _rfc5444_tlv_writer_allocate
    method Allocate(hasExtension: bool, length: nat) returns (r: Code)
      requires Valid() && !flushed && messages == []
      modifies this`reserved
      ensures Valid() && Holding()
      ensures r == Stored <==> header + added + old(reserved) + TlvSize(hasExtension, length) <= data.Length
      ensures reserved == if r == Stored then old(reserved) + TlvSize(hasExtension, length) else old(reserved)
    {
      hide TlvsBytes, WritableTlvs, TlvSize;
      var s := TlvSize(hasExtension, length);
      if header + added + reserved + s > data.Length {
        return MtuTooSmall;
      }
      reserved := reserved + s;
      AtEmpty(data[..], header + added + reserved);
      r := Stored;
    }

    // _rfc5444_tlv_writer_set: only into room that has been allocated
    method Set(t: Tlv) returns (r: Code)
      requires Valid() && !flushed && WritableTlv(t)
      modifies this`used, this`setTlvs, data
      ensures Valid() && Holding()
      ensures r == Stored <==> old(used) + TlvSize(t.kind % 256 > 0, |t.value|) <= reserved
      ensures setTlvs == if r == Stored then old(setTlvs) + [t] else old(setTlvs)
    {
      hide TlvsBytes, TlvBytes, WritableTlv, WritableTlvs, TlvSize, Laid, Except, At;
      var s := TlvSize(t.kind % 256 != 0, |t.value|);
      if reserved - used < s {
        // more than has been allocated
        return MtuTooSmall;
      }
      SizeRight(t);
      TlvsSnoc(setTlvs, t);
      ghost var before := data[..];
      WriteTlv(header + added + used, t);
      LaidSet(before, data[..], header, TlvsBytes(addedTlvs), TlvsBytes(setTlvs), reserved, messages, TlvBytes(t));
      used := used + s;
      setTlvs := setTlvs + [t];
      r := Stored;
    }

    // A message that fits is stored behind the others, and behind the allocated room.
    method AddMessage(message: seq<byte>)
      requires Valid() && !flushed && header + added + reserved + messagesSize + |message| <= data.Length
      modifies this`messagesSize, this`messages, data
      ensures Valid() && Holding() && messages == old(messages) + message
    {
      hide TlvsBytes, WritableTlvs, Laid, Except, At;
      ghost var before := data[..];
      Copy(header + added + reserved + messagesSize, message);
      LaidMessage(before, data[..], header, TlvsBytes(addedTlvs), TlvsBytes(setTlvs), reserved, messages, message);
      messagesSize := messagesSize + |message|;
      messages := messages + message;
    }

    // _write_pktheader: the TLV block length is written only when there are TLVs
    method WriteHeader() returns (ghost hd: seq<byte>)
      requires Holding()
      modifies data
      ensures hd == PacketHead(hasSeqno, seqno, added + used)
      ensures At(data[..], 0, hd) && Except(old(data[..]), data[..], 0, |hd|)
    {
      hide Laid, TlvsBytes, WritableTlvs;
      var flags, bytes: seq<byte> := 0, [];
      if hasSeqno {
        flags := flags + PKT_SEQNO;
        bytes := bytes + [seqno / 256, seqno % 256];
      }
      var len := added + used;
      if len > 0 {
        flags := flags + PKT_TLV;
        bytes := bytes + [len / 256 % 256, len % 256];
      }
      hd := [flags] + bytes;
      Copy(0, [flags] + bytes);
    }

    // rfc5444_writer_flush, without post-processors: the packet sent is the header, the added TLVs, the
    // set TLVs and the messages, whatever room has been allocated and not used.
    method Flush(force: bool)
      requires Valid()
      modifies this, data
      ensures Valid() && (flushed || old(flushed))
      ensures old(flushed) && !force ==> sent == old(sent)
      ensures old(flushed) && force ==> sent == old(sent) + [PacketBytes(false, old(seqno), [], [])]
      ensures !old(flushed) ==> sent == old(sent) + [old(Packet())]
    {
      hide Laid, Except, At, TlvsBytes, WritableTlvs;
      if flushed {
        if !force {
          return;
        }
        // a forced flush sends an empty packet
        Begin(false, seqno);
      }
      Send();
    }

    method Send()
      requires Valid() && !flushed
      modifies this, data
      ensures Valid() && flushed && sent == old(sent) + [old(Packet())] && seqno == old(seqno)
    {
      hide Packet, Laid, TlvsBytes, WritableTlvs;
      var total := Assemble();
      sent := sent + [data[..total]];
      // the length information is cleaned up
      used, messagesSize := 0, 0;
      flushed := true;
    }

    method Assemble() returns (total: nat)
      requires Holding()
      modifies data
      ensures total <= data.Length && data[..total] == old(Packet())
    {
      hide *;
      PacketIs();
      HoldingFacts();
      ghost var a, t := TlvsBytes(addedTlvs), TlvsBytes(setTlvs);
      ghost var hd;
      var len;
      len, hd := PutHeader(a, t);
      ghost var middle := data[..];
      MoveMessages(len + added + used, header + added + reserved, a, t);
      LaidPacket(middle, data[..], hd, header, a, t, reserved, messages);
      total := len + added + used + messagesSize;
    }

    lemma PacketIs()
      requires Holding()
      ensures
        && Packet()
        == Whole(PacketHead(hasSeqno, seqno, added + used), TlvsBytes(addedTlvs), TlvsBytes(setTlvs), messages)
    {
      hide Bytes, PacketHead, TlvsBytes, WritableTlvs, Whole, Holding;
      HoldingFacts();
      PacketSplit(hasSeqno, seqno, addedTlvs, setTlvs, messages);
    }

    lemma HoldingLaid()
      requires Holding()
      ensures Laid(data[..], header, TlvsBytes(addedTlvs), TlvsBytes(setTlvs), reserved, messages)
    {
    }

    lemma HoldingFacts()
      requires Holding()
      ensures WritableTlvs(addedTlvs) && WritableTlvs(setTlvs) && messagesSize == |messages| && seqno < 65536
      ensures added == |TlvsBytes(addedTlvs)| && used == |TlvsBytes(setTlvs)| && used <= reserved
      ensures header == (if hasSeqno then 5 else 3) && header + added + reserved + messagesSize <= data.Length
    {
    }

    // Writes the header and calculates its true length.
    method PutHeader(ghost a: seq<byte>, ghost t: seq<byte>) returns (len: nat, ghost hd: seq<byte>)
      requires Holding() && a == TlvsBytes(addedTlvs) && t == TlvsBytes(setTlvs)
      modifies data
      ensures hd == PacketHead(hasSeqno, seqno, added + used) && len == |hd| <= header
      ensures len == 1 + (if hasSeqno then 2 else 0) + (if added + used > 0 then 2 else 0)
      ensures At(data[..], 0, hd) && Laid(data[..], header, a, t, reserved, messages)
    {
      hide *;
      HoldingFacts();
      HoldingLaid();
      HeadLength(hasSeqno, seqno, added + used);
      ghost var before := data[..];
      hd := WriteHeader();
      LaidHeader(before, data[..], header, a, t, reserved, messages, |hd|);
      len := 1;
      if hasSeqno {
        len := len + 2;
      }
      if added + used > 0 {
        len := len + 2;
      }
    }

    // memmove of the messages over the unused room
    method MoveMessages(to: nat, from: nat, ghost a: seq<byte>, ghost t: seq<byte>)
      requires |a| == added && Laid(data[..], header, a, t, reserved, messages) && messagesSize == |messages|
      requires from == header + added + reserved && to <= from
      modifies data
      ensures At(data[..], to, messages) && Except(old(data[..]), data[..], to, |messages|)
    {
      if messagesSize > 0 {
        Copy(to, data[from..from + messagesSize]);
      }
    }
  }

  lemma NoTlvs()
    ensures WritableTlvs([]) && TlvsBytes([]) == []
  {
  }

  // The header with the length of the TLV block, when there are n bytes of TLVs.
  function PacketHead(hasSeqno: bool, seqno: nat, n: nat): seq<byte>
    requires seqno < 65536
  {
    [PacketFlags(hasSeqno, n > 0)] + SeqnoBytes(hasSeqno, seqno) + (if n > 0 then LengthField(n) else [])
  }

  lemma HeadLength(hasSeqno: bool, seqno: nat, n: nat)
    requires seqno < 65536
    ensures |PacketHead(hasSeqno, seqno, n)| == 1 + (if hasSeqno then 2 else 0) + (if n > 0 then 2 else 0)
  {
  }

  lemma PacketSplit(hasSeqno: bool, seqno: nat, a: seq<Tlv>, t: seq<Tlv>, m: seq<byte>)
    requires seqno < 65536 && WritableTlvs(a) && WritableTlvs(t)
    ensures Bytes(hasSeqno, seqno, a, t, m)
         == Whole(PacketHead(hasSeqno, seqno, |TlvsBytes(a)| + |TlvsBytes(t)|), TlvsBytes(a), TlvsBytes(t), m)
  {
    hide TlvsBytes, WritableTlvs, PacketHead, Whole, PacketBytes;
    TlvsConcat(a, t);
    HeadOf(hasSeqno, seqno, a + t, m);
    Join(PacketHead(hasSeqno, seqno, |TlvsBytes(a)| + |TlvsBytes(t)|), TlvsBytes(a), TlvsBytes(t), m);
  }

  lemma Join(h: seq<byte>, a: seq<byte>, t: seq<byte>, m: seq<byte>)
    ensures h + (a + t) + m == Whole(h, a, t, m)
  {
  }

  lemma HeadOf(hasSeqno: bool, seqno: nat, ts: seq<Tlv>, m: seq<byte>)
    requires seqno < 65536 && WritableTlvs(ts)
    ensures PacketBytes(hasSeqno, seqno, ts, m) == PacketHead(hasSeqno, seqno, |TlvsBytes(ts)|) + TlvsBytes(ts) + m
  {
    NoneWhenEmpty(ts);
    hide TlvsBytes, WritableTlvs, LengthField, SeqnoBytes, PacketFlags;
    var f, sn := [PacketFlags(hasSeqno, ts != [])], SeqnoBytes(hasSeqno, seqno);
    var l, b := LengthField(|TlvsBytes(ts)|), TlvsBytes(ts);
    assert f + sn + (l + b) == f + sn + l + b;
    assert f + sn + [] == f + sn;
  }

  lemma NoneWhenEmpty(ts: seq<Tlv>)
    requires WritableTlvs(ts)
    ensures |TlvsBytes(ts)| > 0 <==> ts != []
  {
    if ts != [] {
      SizeRight(ts[0]);
    }
  }
}
