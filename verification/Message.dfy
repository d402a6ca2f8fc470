// Messages: header, message TLVs and address blocks (section 5.2 of RFC 5444).
module Message {
  import opened Basics
  import opened Rfc5444
  import opened AddrBlock
  import opened AddrCompress
  import opened AddrTlv
  import opened AddrTlvReader
  import opened MessageBody
  import opened Packet

  // Message flags, section 5.2 of RFC 5444.
  const MSG_ORIGINATOR: nat := 0x80
  const MSG_HOPLIMIT: nat := 0x40
  const MSG_HOPCOUNT: nat := 0x20
  const MSG_SEQNO: nat := 0x10

  datatype Header = Header(
    kind: byte, originator: Option<seq<byte>>, hopLimit: Option<byte>, hopCount: Option<byte>, seqno: Option<nat>)

  predicate HeaderValid(h: Header, addrLen: nat) {
    && 1 <= addrLen <= MAX_ADDRLEN
    && (h.originator.Some? ==> |h.originator.value| == addrLen) && (h.seqno.Some? ==> h.seqno.value < 65536)
  }

  function HeaderFlags(h: Header, addrLen: nat): byte
    requires 1 <= addrLen <= MAX_ADDRLEN
  {
    (if h.originator.Some? then MSG_ORIGINATOR else 0) + (if h.hopLimit.Some? then MSG_HOPLIMIT else 0)
    + (if h.hopCount.Some? then MSG_HOPCOUNT else 0) + (if h.seqno.Some? then MSG_SEQNO else 0) + addrLen - 1
  }

  function OriginatorBytes(h: Header): seq<byte> {
    if h.originator.Some? then h.originator.value else []
  }

  function HopLimitBytes(h: Header): seq<byte> {
    if h.hopLimit.Some? then [h.hopLimit.value] else []
  }

  function HopCountBytes(h: Header): seq<byte> {
    if h.hopCount.Some? then [h.hopCount.value] else []
  }

  function SequenceBytes(h: Header): seq<byte>
    requires h.seqno.Some? ==> h.seqno.value < 65536
  {
    if h.seqno.Some? then [h.seqno.value / 256, h.seqno.value % 256] else []
  }

  function FixedBytes(h: Header, addrLen: nat, size: nat): seq<byte>
    requires 1 <= addrLen <= MAX_ADDRLEN
  {
    [h.kind, HeaderFlags(h, addrLen), size / 256 % 256, size % 256]
  }

  // _write_msgheader, without the length of the TLV block
  function HeaderBytes(h: Header, addrLen: nat, size: nat): seq<byte>
    requires HeaderValid(h, addrLen)
  {
    FixedBytes(h, addrLen, size) + OriginatorBytes(h) + HopLimitBytes(h) + HopCountBytes(h) + SequenceBytes(h)
  }

  // The optional fields, in their order.
  method WriteOptional(h: Header) returns (rest: seq<byte>)
    requires h.seqno.Some? ==> h.seqno.value < 65536
    ensures rest == OriginatorBytes(h) + HopLimitBytes(h) + HopCountBytes(h) + SequenceBytes(h)
  {
    rest := [];
    if h.originator.Some? {
      rest := rest + h.originator.value;
    }
    assert rest == OriginatorBytes(h);
    if h.hopLimit.Some? {
      rest := rest + [h.hopLimit.value];
    }
    assert rest == OriginatorBytes(h) + HopLimitBytes(h);
    if h.hopCount.Some? {
      rest := rest + [h.hopCount.value];
    }
    assert rest == OriginatorBytes(h) + HopLimitBytes(h) + HopCountBytes(h);
    if h.seqno.Some? {
      rest := rest + [h.seqno.value / 256, h.seqno.value % 256];
    }
  }

  // The header as the writer builds it, field by field.
  method WriteHeader(h: Header, addrLen: nat, size: nat) returns (out: seq<byte>)
    requires HeaderValid(h, addrLen)
    ensures out == HeaderBytes(h, addrLen, size)
    ensures |out| >= 4 && out[0] == h.kind && out[1] % 16 + 1 == addrLen && Word(out, 2) == size % 65536
    ensures (Bit(out[1], 128) <==> h.originator.Some?) && (Bit(out[1], 64) <==> h.hopLimit.Some?)
    ensures (Bit(out[1], 32) <==> h.hopCount.Some?) && (Bit(out[1], 16) <==> h.seqno.Some?)
  {
    hide OriginatorBytes, HopLimitBytes, HopCountBytes, SequenceBytes, Bit, HasFlag;
    HeaderFlagBits(h, addrLen);
    var flags := addrLen - 1;
    if h.originator.Some? {
      flags := flags + MSG_ORIGINATOR;
    }
    if h.hopLimit.Some? {
      flags := flags + MSG_HOPLIMIT;
    }
    if h.hopCount.Some? {
      flags := flags + MSG_HOPCOUNT;
    }
    if h.seqno.Some? {
      flags := flags + MSG_SEQNO;
    }
    var rest := WriteOptional(h);
    out := [h.kind, flags, size / 256 % 256, size % 256] + rest;
  }

  function HeaderSize(h: Header): nat {
    4 + (if h.originator.Some? then |h.originator.value| else 0) + (if h.hopLimit.Some? then 1 else 0)
    + (if h.hopCount.Some? then 1 else 0) + (if h.seqno.Some? then 2 else 0)
  }

  function TlvBlockBytes(ts: seq<Tlv>): seq<byte>
    requires WritableTlvs(ts)
  {
    LengthField(|TlvsBytes(ts)|) + TlvsBytes(ts)
  }

  // A message fragment.
  function MessageBytes(h: Header, addrLen: nat, ts: seq<Tlv>, body: seq<byte>): seq<byte>
    requires HeaderValid(h, addrLen) && WritableTlvs(ts)
  {
    HeaderBytes(h, addrLen, HeaderSize(h) + |TlvBlockBytes(ts)| + |body|) + TlvBlockBytes(ts) + body
  }

  // ---- reading ----

  datatype ParsedMessage =
    | ParsedMessage(header: Header, addrLen: nat, tlvs: seq<TlvEntry>, sections: seq<Section>, start: nat, end: nat)
    | BadMessage(result: Result)

  datatype ParsedHeader = ParsedHeader(header: Header, addrLen: nat, size: nat, c: Cursor)

  function ParseFixed(buf: seq<byte>, p: nat, eob: nat): (byte, byte, nat, Cursor)
    requires eob <= |buf|
  {
    var (kind, c1) := GetU8(buf, Cursor(p, Okay), eob);
    var (flags, c2) := GetU8(buf, c1, eob);
    var (size, c3) := GetU16(buf, c2, eob);
    (kind, flags, size, c3)
  }

  // The optional fields behind the originator.
  function ParseOptional(buf: seq<byte>, c: Cursor, eob: nat, kind: byte, flags: byte, originator: Option<seq<byte>>)
    : (Header, Cursor)
    requires eob <= |buf|
  {
    var (limit, c1) := if HasFlag(flags, MSG_HOPLIMIT) then GetU8(buf, c, eob) else (0, c);
    var (count, c2) := if HasFlag(flags, MSG_HOPCOUNT) then GetU8(buf, c1, eob) else (0, c1);
    var (seqno, c3) := if HasFlag(flags, MSG_SEQNO) then GetU16(buf, c2, eob) else (0, c2);
    (Header(kind, originator, if HasFlag(flags, MSG_HOPLIMIT) then Some(limit) else None,
            if HasFlag(flags, MSG_HOPCOUNT) then Some(count) else None,
            if HasFlag(flags, MSG_SEQNO) then Some(seqno) else None), c3)
  }

  // _handle_message, up to the consumers
  function ParseMessage(buf: seq<byte>, p: nat, eob: nat): ParsedMessage
    requires p <= eob <= |buf|
  {
    var (kind, flags, size, c) := ParseFixed(buf, p, eob);
    var addrLen := flags % 16 + 1;
    if HasFlag(flags, MSG_ORIGINATOR) && c.ptr + addrLen > eob then BadMessage(EndOfBuffer)
    else
      var originator := if HasFlag(flags, MSG_ORIGINATOR) then Some(buf[c.ptr..c.ptr + addrLen]) else None;
      var c' := if HasFlag(flags, MSG_ORIGINATOR) then c.(ptr := c.ptr + addrLen) else c;
      var (header, c'') := ParseOptional(buf, c', eob, kind, flags, originator);
      if p + size > eob then BadMessage(EndOfBuffer)
      else if c''.result != Okay then BadMessage(c''.result)
      else ParseContent(buf, c''.ptr, p + size, header, addrLen)
  }

  function ParseContent(buf: seq<byte>, q: nat, end: nat, header: Header, addrLen: nat): ParsedMessage
    requires end <= |buf| && 1 <= addrLen <= MAX_ADDRLEN
  {
    var tlvs := ParseTlvBlock(buf, q, end, 0);
    if tlvs.result != Okay then BadMessage(tlvs.result)
    else
      var body := ParseBody(buf, tlvs.ptr, end, addrLen);
      if body.result != Okay then BadMessage(body.result)
      else ParsedMessage(header, addrLen, tlvs.entries, body.sections, tlvs.ptr, end)
  }

  // ---- round trip ----

  lemma HeaderFlagBits(h: Header, addrLen: nat)
    requires 1 <= addrLen <= MAX_ADDRLEN
    ensures var f := HeaderFlags(h, addrLen);
      && f % 16 == addrLen - 1
      && HasFlag(f, MSG_ORIGINATOR) == h.originator.Some? && HasFlag(f, MSG_HOPLIMIT) == h.hopLimit.Some?
      && HasFlag(f, MSG_HOPCOUNT) == h.hopCount.Some? && HasFlag(f, MSG_SEQNO) == h.seqno.Some?
      && (Bit(f, 128) <==> h.originator.Some?) && (Bit(f, 64) <==> h.hopLimit.Some?)
      && (Bit(f, 32) <==> h.hopCount.Some?) && (Bit(f, 16) <==> h.seqno.Some?)
  {
  }

  lemma ReadFixed(buf: seq<byte>, p: nat, eob: nat, h: Header, addrLen: nat, size: nat)
    requires 1 <= addrLen <= MAX_ADDRLEN && size < 65536
    requires At(buf, p, FixedBytes(h, addrLen, size)) && p + 4 <= eob <= |buf|
    ensures ParseFixed(buf, p, eob) == (h.kind, HeaderFlags(h, addrLen), size, Cursor(p + 4, Okay))
  {
    hide At, HeaderFlags;
    var s := FixedBytes(h, addrLen, size);
    AtIndex(buf, p, s, 0);
    AtIndex(buf, p, s, 1);
    AtIndex(buf, p, s, 2);
    AtIndex(buf, p, s, 3);
  }

  lemma ReadOptional(buf: seq<byte>, p: nat, eob: nat, h: Header, flags: byte, l: seq<byte>, n: seq<byte>, s: seq<byte>)
    requires h.seqno.Some? ==> h.seqno.value < 65536
    requires HasFlag(flags, MSG_HOPLIMIT) == h.hopLimit.Some? && HasFlag(flags, MSG_HOPCOUNT) == h.hopCount.Some?
    requires HasFlag(flags, MSG_SEQNO) == h.seqno.Some?
    requires l == HopLimitBytes(h) && n == HopCountBytes(h) && s == SequenceBytes(h)
    requires At(buf, p, l) && At(buf, p + |l|, n) && At(buf, p + |l| + |n|, s) && p + |l| + |n| + |s| <= eob <= |buf|
    ensures ParseOptional(buf, Cursor(p, Okay), eob, h.kind, flags, h.originator)
         == (h, Cursor(p + |l| + |n| + |s|, Okay))
  {
    hide At, HasFlag;
    if h.hopLimit.Some? {
      AtIndex(buf, p, l, 0);
    }
    if h.hopCount.Some? {
      AtIndex(buf, p + |l|, n, 0);
    }
    if h.seqno.Some? {
      AtIndex(buf, p + |l| + |n|, s, 0);
      AtIndex(buf, p + |l| + |n|, s, 1);
    }
  }

  lemma HeaderParts(buf: seq<byte>, p: nat, f: seq<byte>, o: seq<byte>, l: seq<byte>, n: seq<byte>, s: seq<byte>)
    requires At(buf, p, f + o + l + n + s)
    ensures At(buf, p, f) && At(buf, p + |f|, o) && At(buf, p + |f| + |o|, l)
    ensures At(buf, p + |f| + |o| + |l|, n) && At(buf, p + |f| + |o| + |l| + |n|, s)
  {
    AtSplit(buf, p, f + o + l + n, s);
    AtSplit(buf, p, f + o + l, n);
    AtSplit(buf, p, f + o, l);
    AtSplit(buf, p, f, o);
  }

  lemma HeaderLengths(h: Header, addrLen: nat, size: nat)
    requires HeaderValid(h, addrLen)
    ensures |FixedBytes(h, addrLen, size)| == 4
    ensures h.originator.Some? ==> |OriginatorBytes(h)| == addrLen && OriginatorBytes(h) == h.originator.value
    ensures h.originator.None? ==> OriginatorBytes(h) == []
    ensures HeaderSize(h) == 4 + |OriginatorBytes(h)| + |HopLimitBytes(h)| + |HopCountBytes(h)| + |SequenceBytes(h)|
    ensures |HeaderBytes(h, addrLen, size)| == HeaderSize(h)
  {
  }

  // Reading the header of a message that fits the buffer leads to its content.
  lemma ReadHeader(buf: seq<byte>, p: nat, eob: nat, h: Header, addrLen: nat, size: nat)
    requires HeaderValid(h, addrLen) && size < 65536 && At(buf, p, HeaderBytes(h, addrLen, size))
    requires HeaderSize(h) <= size && p + size <= eob <= |buf|
    ensures ParseMessage(buf, p, eob) == ParseContent(buf, p + HeaderSize(h), p + size, h, addrLen)
  {
    hide At, HasFlag, HeaderFlags, HopLimitBytes, HopCountBytes, SequenceBytes, OriginatorBytes, FixedBytes;
    hide ParseContent, ParseFixed, ParseOptional, HeaderSize;
    var f, o, l := FixedBytes(h, addrLen, size), OriginatorBytes(h), HopLimitBytes(h);
    var n, s := HopCountBytes(h), SequenceBytes(h);
    HeaderLengths(h, addrLen, size);
    HeaderFlagBits(h, addrLen);
    HeaderParts(buf, p, f, o, l, n, s);
    ReadFixed(buf, p, eob, h, addrLen, size);
    ReadOptional(buf, p + 4 + |o|, eob, h, HeaderFlags(h, addrLen), l, n, s);
    AtSlice(buf, p + 4, o);
  }

  // A whole message, read back: the header fields, the message TLVs as a multiset, and the address
  // blocks with the TLVs of each address.
  lemma RoundTripMessage(buf: seq<byte>, p: nat, eob: nat, h: Header, ts: seq<Tlv>, job: Job, blocks: seq<Run>,
                         lists: seq<seq<Group>>, trees: seq<seq<Tlv>>, body: seq<byte>)
    requires job.Sound() && HeaderValid(h, job.addrLen) && WritableTlvs(ts)
    requires AllWritable(job, blocks) && GroupLists(job, blocks, lists) && Filled(job, blocks, lists, trees)
    requires body == BodyBytes(job, blocks, lists)
    requires At(buf, p, MessageBytes(h, job.addrLen, ts, body)) && |MessageBytes(h, job.addrLen, ts, body)| < 65536
    requires p + |MessageBytes(h, job.addrLen, ts, body)| <= eob <= |buf|
    ensures var r := ParseMessage(buf, p, eob);
      && r.ParsedMessage? && r.header == h && r.addrLen == job.addrLen && HandedAll(r.tlvs, buf, 0) == multiset(ts)
      && DeliversAll(r.sections, buf, job, blocks, trees)
      && r.end == p + |MessageBytes(h, job.addrLen, ts, body)| && r.start + |body| == r.end && At(buf, r.start, body)
  {
    hide At, HeaderBytes, HeaderSize, BodyBytes, TlvsBytes, ParseMessage, ParseTlvBlock, ParseBody, HandedAll;
    hide DeliversAll, Filled, GroupLists, AllWritable, WritableTlvs, LengthField;
    var block := TlvBlockBytes(ts);
    var size := HeaderSize(h) + |block| + |body|;
    HeaderLengths(h, job.addrLen, size);
    FieldBytes(|TlvsBytes(ts)|);
    var head := HeaderBytes(h, job.addrLen, size);
    AtSplit(buf, p, head + block, body);
    AtSplit(buf, p, head, block);
    ReadHeader(buf, p, eob, h, job.addrLen, size);
    RoundTripTlvBlock(buf, p + |head|, p + size, ts);
    BodyParsed(buf, p + |head| + |block|, p + size, job, blocks, lists, trees);
  }
}
