// A packet with its messages, read back.
module Reception {
  import opened Basics
  import opened Rfc5444
  import opened AddrBlock
  import opened AddrCompress
  import opened AddrTlv
  import opened AddrTlvReader
  import opened MessageBody
  import opened Message
  import opened Packet

  // A message as it is written.
  datatype Outgoing = Outgoing(
    header: Header, tlvs: seq<Tlv>, job: Job, blocks: seq<Run>, lists: seq<seq<Group>>, trees: seq<seq<Tlv>>)

  predicate Writable(m: Outgoing) {
    && m.job.Sound() && HeaderValid(m.header, m.job.addrLen) && WritableTlvs(m.tlvs)
    && AllWritable(m.job, m.blocks) && GroupLists(m.job, m.blocks, m.lists)
    && Filled(m.job, m.blocks, m.lists, m.trees)
    && |MessageBytes(m.header, m.job.addrLen, m.tlvs, BodyBytes(m.job, m.blocks, m.lists))| < 65536
  }

  function Wire(m: Outgoing): seq<byte>
    requires Writable(m)
  {
    MessageBytes(m.header, m.job.addrLen, m.tlvs, BodyBytes(m.job, m.blocks, m.lists))
  }

  predicate AllWritten(ms: seq<Outgoing>) {
    forall k | 0 <= k < |ms| :: Writable(ms[k])
  }

  function WireAll(ms: seq<Outgoing>): seq<byte>
    requires AllWritten(ms)
  {
    if ms == [] then [] else Wire(ms[0]) + WireAll(ms[1..])
  }

  // The message read is the one written.
  predicate Same(r: ParsedMessage, m: Outgoing, buf: seq<byte>) {
    && m.job.Sound() && r.ParsedMessage? && r.header == m.header && r.addrLen == m.job.addrLen
    && HandedAll(r.tlvs, buf, 0) == multiset(m.tlvs) && DeliversAll(r.sections, buf, m.job, m.blocks, m.trees)
  }

  predicate AllSame(rs: seq<ParsedMessage>, ms: seq<Outgoing>, buf: seq<byte>) {
    |rs| == |ms| && forall k | 0 <= k < |ms| :: Same(rs[k], ms[k], buf)
  }

  lemma OptionalAdvances(buf: seq<byte>, c: Cursor, eob: nat, kind: byte, flags: byte, originator: Option<seq<byte>>)
    requires eob <= |buf|
    ensures c.ptr <= ParseOptional(buf, c, eob, kind, flags, originator).1.ptr
  {
    hide HasFlag;
  }

  lemma FixedAdvances(buf: seq<byte>, p: nat, eob: nat)
    requires eob <= |buf|
    ensures p <= ParseFixed(buf, p, eob).3.ptr
  {
  }

  // A message that has been read ends behind its start.
  lemma MessageAdvances(buf: seq<byte>, p: nat, eob: nat)
    requires p <= eob <= |buf|
    ensures var r := ParseMessage(buf, p, eob); r.ParsedMessage? ==> p < r.end <= eob
  {
    hide HasFlag, ParseTlvBlock, ParseBody, ParseFixed, ParseOptional;
    FixedAdvances(buf, p, eob);
    var (kind, flags, size, c) := ParseFixed(buf, p, eob);
    var addrLen := flags % 16 + 1;
    if !(HasFlag(flags, MSG_ORIGINATOR) && c.ptr + addrLen > eob) {
      var originator := if HasFlag(flags, MSG_ORIGINATOR) then Some(buf[c.ptr..c.ptr + addrLen]) else None;
      var c' := if HasFlag(flags, MSG_ORIGINATOR) then c.(ptr := c.ptr + addrLen) else c;
      OptionalAdvances(buf, c', eob, kind, flags, originator);
      var (_, c'') := ParseOptional(buf, c', eob, kind, flags, originator);
      if p + size <= eob && c''.result == Okay {
        BlockInside(buf, c''.ptr, p + size);
      }
    }
  }

  lemma BlockInside(buf: seq<byte>, q: nat, end: nat)
    requires end <= |buf|
    ensures ParseTlvBlock(buf, q, end, 0).result == Okay ==> q + 2 <= end
  {
    hide ParseTlvs;
  }

  // The loop of rfc5444_reader_handle_packet over the messages.
  function ParseMessages(buf: seq<byte>, p: nat, eob: nat): seq<ParsedMessage>
    requires p <= eob <= |buf|
    decreases eob - p
  {
    if p == eob then []
    else
      var r := ParseMessage(buf, p, eob);
      MessageAdvances(buf, p, eob);
      if r.BadMessage? then [r] else [r] + ParseMessages(buf, r.end, eob)
  }

  method ReadMessages(buf: seq<byte>, p: nat, eob: nat) returns (rs: seq<ParsedMessage>)
    requires p <= eob <= |buf|
    ensures rs == ParseMessages(buf, p, eob)
  {
    hide ParseMessage;
    rs := [];
    var ptr, good := p, true;
    while good && ptr < eob
      invariant p <= ptr <= eob
      invariant rs + (if good then ParseMessages(buf, ptr, eob) else []) == ParseMessages(buf, p, eob)
      decreases good, eob - ptr
    {
      MessageAdvances(buf, ptr, eob);
      var r := ParseMessage(buf, ptr, eob);
      if r.BadMessage? {
        good := false;
      } else {
        Shift(rs, r, ParseMessages(buf, r.end, eob));
        ptr := r.end;
      }
      rs := rs + [r];
    }
  }

  lemma Shift(a: seq<ParsedMessage>, r: ParsedMessage, b: seq<ParsedMessage>)
    ensures a + ([r] + b) == a + [r] + b
  {
  }

  lemma OneMessage(buf: seq<byte>, p: nat, eob: nat, m: Outgoing)
    requires Writable(m) && At(buf, p, Wire(m)) && p + |Wire(m)| <= eob <= |buf|
    ensures Same(ParseMessage(buf, p, eob), m, buf) && ParseMessage(buf, p, eob).end == p + |Wire(m)|
  {
    hide At, MessageBytes, BodyBytes, ParseMessage, HandedAll, DeliversAll, Filled, GroupLists, AllWritable;
    var body := BodyBytes(m.job, m.blocks, m.lists);
    RoundTripMessage(buf, p, eob, m.header, m.tlvs, m.job, m.blocks, m.lists, m.trees, body);
  }

  lemma {:induction false} AllMessages(buf: seq<byte>, p: nat, eob: nat, ms: seq<Outgoing>)
    requires AllWritten(ms) && At(buf, p, WireAll(ms)) && p + |WireAll(ms)| == eob <= |buf|
    ensures AllSame(ParseMessages(buf, p, eob), ms, buf)
    decreases |ms|
  {
    hide At, Wire, Writable, Same, ParseMessage;
    if ms != [] {
      var first, rest := Wire(ms[0]), WireAll(ms[1..]);
      AtSplit(buf, p, first, rest);
      OneMessage(buf, p, eob, ms[0]);
      SameParsed(ParseMessage(buf, p, eob), ms[0], buf);
      MessageAdvances(buf, p, eob);
      AllMessages(buf, p + |first|, eob, ms[1..]);
    }
  }

  lemma SameParsed(r: ParsedMessage, m: Outgoing, buf: seq<byte>)
    requires Writable(m) && Same(r, m, buf)
    ensures r.ParsedMessage?
  {
  }

  // A packet of n messages is read back as these n messages, in order, behind its sequence number and
  // its TLVs.
  lemma PacketOfMessages(buf: seq<byte>, hasSeqno: bool, seqno: nat, ts: seq<Tlv>, ms: seq<Outgoing>)
    requires seqno < 65536 && WritableTlvs(ts) && AllWritten(ms)
    requires buf == PacketBytes(hasSeqno, seqno, ts, WireAll(ms)) && |buf| <= 65535
    ensures
      var r := ParsePacket(buf);
      && r.ParsedPacket? && r.hasSeqno == hasSeqno && (hasSeqno ==> r.seqno == seqno)
      && HandedAll(r.entries, buf, 0) == multiset(ts) && r.messages <= |buf|
      && AllSame(ParseMessages(buf, r.messages, |buf|), ms, buf)
  {
    hide ParsePacket, PacketBytes, HandedAll, WritableTlvs, WireAll, AllWritten, AllSame, ParseMessages;
    RoundTripPacket(buf, hasSeqno, seqno, ts, WireAll(ms));
    var p := ParsePacket(buf).messages;
    Behind(buf, p, WireAll(ms));
    AllMessages(buf, p, |buf|, ms);
  }

  lemma Behind(buf: seq<byte>, p: nat, s: seq<byte>)
    requires p <= |buf| && buf[p..] == s
    ensures At(buf, p, s) && p + |s| == |buf|
  {
  }
}
