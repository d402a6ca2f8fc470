// The bytes on the wire in plain numbers, as another implementation of RFC 5444 reads them.
module WireFormat {
  import opened Basics
  import opened Rfc5444
  import opened AddrBlock
  import opened AddrCompress
  import opened AddrTlv
  import opened AddrTlvReader
  import opened MessageBody
  import opened Packet
  import opened Message

  // Four parts, one behind the other.
  lemma Parts(out: seq<byte>, a: seq<byte>, b: seq<byte>, c: seq<byte>, d: seq<byte>)
    requires out == a + b + c + d
    ensures |out| == |a| + |b| + |c| + |d| && forall k :: 0 <= k < |a| ==> out[k] == a[k]
    ensures forall k :: 0 <= k < |b| ==> out[|a| + k] == b[k]
    ensures forall k :: 0 <= k < |c| ==> out[|a| + |b| + k] == c[k]
    ensures out[|a|..|a| + |b|] == b && out[|a| + |b|..|a| + |b| + |c|] == c && out[|a| + |b| + |c|..] == d
  {
  }

  // Section 5.2 of RFC 5444: type, flags and address length, size, and the optional fields behind them.
  lemma HeaderOnWire(h: Header, addrLen: nat, size: nat)
    requires HeaderValid(h, addrLen) && size < 65536
    ensures
      var out := HeaderBytes(h, addrLen, size);
      var limit := 4 + if h.originator.Some? then addrLen else 0;
      var count := limit + if h.hopLimit.Some? then 1 else 0;
      var seqno := count + if h.hopCount.Some? then 1 else 0;
      && |out| == seqno + (if h.seqno.Some? then 2 else 0)
      && out[0] == h.kind && out[1] % 16 + 1 == addrLen && Word(out, 2) == size
      && (Bit(out[1], 128) <==> h.originator.Some?) && (Bit(out[1], 64) <==> h.hopLimit.Some?)
      && (Bit(out[1], 32) <==> h.hopCount.Some?) && (Bit(out[1], 16) <==> h.seqno.Some?)
      && (h.originator.Some? ==> out[4..limit] == h.originator.value)
      && (h.hopLimit.Some? ==> out[limit] == h.hopLimit.value)
      && (h.hopCount.Some? ==> out[count] == h.hopCount.value)
      && (h.seqno.Some? ==> Word(out, seqno) == h.seqno.value)
  {
    hide HeaderFlags, Bit, HasFlag, At, FixedBytes, OriginatorBytes, HopLimitBytes, HopCountBytes, SequenceBytes;
    hide HeaderBytes, HeaderSize, Word;
    HeaderFlagBits(h, addrLen);
    var f, o, l := FixedBytes(h, addrLen, size), OriginatorBytes(h), HopLimitBytes(h);
    var n, s := HopCountBytes(h), SequenceBytes(h);
    HeaderLengths(h, addrLen, size);
    var out := HeaderBytes(h, addrLen, size);
    HeaderIs(h, addrLen, size);
    HeaderAt(out, f, o, l, n, s);
    FixedOnWire(out, h, addrLen, size);
    OptionalOnWire(out, 4 + |o|, h);
    AtSlice(out, 4, o);
  }

  lemma HeaderIs(h: Header, addrLen: nat, size: nat)
    requires HeaderValid(h, addrLen)
    ensures HeaderBytes(h, addrLen, size)
         == FixedBytes(h, addrLen, size) + OriginatorBytes(h) + HopLimitBytes(h) + HopCountBytes(h) + SequenceBytes(h)
    ensures HeaderSize(h) == 4 + |OriginatorBytes(h)| + |HopLimitBytes(h)| + |HopCountBytes(h)| + |SequenceBytes(h)|
  {
    HeaderLengths(h, addrLen, size);
  }

  lemma HeaderAt(out: seq<byte>, f: seq<byte>, o: seq<byte>, l: seq<byte>, n: seq<byte>, s: seq<byte>)
    requires out == f + o + l + n + s
    ensures At(out, 0, f) && At(out, |f|, o) && At(out, |f| + |o|, l)
    ensures At(out, |f| + |o| + |l|, n) && At(out, |f| + |o| + |l| + |n|, s)
  {
    assert out[..] == out;
    HeaderParts(out, 0, f, o, l, n, s);
  }

  lemma FixedOnWire(out: seq<byte>, h: Header, addrLen: nat, size: nat)
    requires 1 <= addrLen <= MAX_ADDRLEN && size < 65536 && At(out, 0, FixedBytes(h, addrLen, size))
    ensures |out| >= 4 && out[0] == h.kind && out[1] == HeaderFlags(h, addrLen) && Word(out, 2) == size
  {
    hide HeaderFlags;
  }

  lemma OptionalOnWire(out: seq<byte>, limit: nat, h: Header)
    requires h.seqno.Some? ==> h.seqno.value < 65536
    requires var l, n := HopLimitBytes(h), HopCountBytes(h);
      At(out, limit, l) && At(out, limit + |l|, n) && At(out, limit + |l| + |n|, SequenceBytes(h))
    ensures
      var count := limit + if h.hopLimit.Some? then 1 else 0;
      var seqno := count + if h.hopCount.Some? then 1 else 0;
      && (h.hopLimit.Some? ==> limit < |out| && out[limit] == h.hopLimit.value)
      && (h.hopCount.Some? ==> count < |out| && out[count] == h.hopCount.value)
      && (h.seqno.Some? ==> seqno + 1 < |out| && Word(out, seqno) == h.seqno.value)
      && seqno + (if h.seqno.Some? then 2 else 0)
         == limit + |HopLimitBytes(h)| + |HopCountBytes(h)| + |SequenceBytes(h)|
  {
  }

  // Section 5.1 of RFC 5444: version 0 and flags, sequence number, TLV block, messages.
  lemma PacketOnWire(hasSeqno: bool, seqno: nat, ts: seq<Tlv>, messages: seq<byte>)
    requires seqno < 65536 && WritableTlvs(ts) && |TlvsBytes(ts)| < 65536
    ensures
      var out := PacketBytes(hasSeqno, seqno, ts, messages);
      var block := 1 + if hasSeqno then 2 else 0;
      var rest := block + if ts == [] then 0 else 2 + |TlvsBytes(ts)|;
      && |out| == rest + |messages| && out[rest..] == messages
      && out[0] / 16 == 0 && (Bit(out[0], 8) <==> hasSeqno) && (Bit(out[0], 4) <==> ts != [])
      && !Bit(out[0], 2) && !Bit(out[0], 1)
      && (hasSeqno ==> Word(out, 1) == seqno)
      && (ts != [] ==> Word(out, block) == |TlvsBytes(ts)|)
      && (ts != [] ==> out[block + 2..rest] == TlvsBytes(ts))
  {
    hide TlvsBytes, WritableTlvs;
    var flags, sn, block := PacketFlags(hasSeqno, ts != []), SeqnoBytes(hasSeqno, seqno), BlockOf(ts);
    var out := PacketBytes(hasSeqno, seqno, ts, messages);
    PacketParts(out, flags, sn, block, messages);
    if ts != [] {
      FieldBytes(|TlvsBytes(ts)|);
      AtSplit(out, 1 + |sn|, LengthField(|TlvsBytes(ts)|), TlvsBytes(ts));
    }
  }

  // Section 5.4.1 of RFC 5444, for a packet or a message: type, flags, type extension, length, value.
  lemma TlvOnWire(t: Tlv)
    requires WritableTlv(t)
    ensures
      var out, n := TlvBytes(t), |t.value|;
      var length := 2 + if t.kind % 256 > 0 then 1 else 0;
      var value := length + if n > 255 then 2 else if n > 0 then 1 else 0;
      && |out| == value + n && out[value..] == t.value && out[0] == t.kind / 256
      && (Bit(out[1], 128) <==> t.kind % 256 > 0) && !Bit(out[1], 64) && !Bit(out[1], 32)
      && (Bit(out[1], 16) <==> n > 0) && (Bit(out[1], 8) <==> n > 255) && out[1] % 8 == 0
      && (t.kind % 256 > 0 ==> out[2] == t.kind % 256)
      && (n > 255 ==> Word(out, length) == n) && (0 < n <= 255 ==> out[length] == n)
  {
    PlainBits(t);
    hide PlainFlags;
    var ty, le := TypeBytes(t.kind, PlainFlags(t)), LengthBytes(|t.value|);
    assert TlvBytes(t) == ty + le + t.value;
  }

  lemma PlainBits(t: Tlv)
    ensures
      var f, n := PlainFlags(t), |t.value|;
      && (Bit(f, 128) <==> t.kind % 256 > 0) && !Bit(f, 64) && !Bit(f, 32)
      && (Bit(f, 16) <==> n > 0) && (Bit(f, 8) <==> n > 255) && f % 8 == 0
  {
  }

  // Section 5.4.1 of RFC 5444, for the addresses lo to hi of a block of n: an index range is left out when
  // it holds all addresses, and is one index when it holds one of them; one value for all or one for each.
  lemma GroupOnWire(g: Group, n: nat)
    requires Grouped(g, n) && n < 256
    ensures
      var out, total, hi := GroupBytes(g, n), TotalLength(g), g.lo + |g.values| - 1;
      var index := 2 + if g.kind % 256 > 0 then 1 else 0;
      var all, one := |g.values| == n, |g.values| == 1;
      var length := index + if all then 0 else if one then 1 else 2;
      var value := length + if total > 255 then 2 else if total > 0 then 1 else 0;
      && |out| == value + |ValueBytes(g)| && out[value..] == ValueBytes(g) && out[0] == g.kind / 256
      && (Bit(out[1], 128) <==> g.kind % 256 > 0)
      && (Bit(out[1], 64) <==> !all && one) && (Bit(out[1], 32) <==> !all && !one)
      && (Bit(out[1], 16) <==> total > 0) && (Bit(out[1], 8) <==> total > 255)
      && (Bit(out[1], 4) <==> !g.same) && out[1] % 4 == 0
      && (g.kind % 256 > 0 ==> out[2] == g.kind % 256)
      && (!all ==> out[index] == g.lo) && (!all && !one ==> out[index + 1] == hi)
      && (total > 255 ==> Word(out, length) == total) && (0 < total <= 255 ==> out[length] == total)
  {
    hide TlvFlags, ValueBytes, TotalLength, EvenValues, SameValues, GroupBytes, Bit;
    GroupBits(g, n);
    GroupParts(g, n);
    Parts(GroupBytes(g, n), TypeBytes(g.kind, TlvFlags(g, n)), IndexBytes(g.lo, Last(g), n),
          LengthBytes(TotalLength(g)), ValueBytes(g));
  }

  // The value of address lo + k: the common one, or the k-th one.
  lemma ValueOnWire(g: Group, n: nat, k: nat)
    requires Grouped(g, n) && k < |g.values|
    ensures g.same ==> ValueBytes(g) == g.values[k]
    ensures !g.same ==> At(ValueBytes(g), Area(|g.values[0]|, k), g.values[k])
    ensures !g.same ==> |ValueBytes(g)| == Area(|g.values[0]|, |g.values|)
  {
    hide At, Area;
    ConcatAt(g.values, k);
  }

  lemma GroupParts(g: Group, n: nat)
    requires Grouped(g, n) && n < 256
    ensures GroupBytes(g, n)
         == TypeBytes(g.kind, TlvFlags(g, n)) + IndexBytes(g.lo, Last(g), n) + LengthBytes(TotalLength(g))
            + ValueBytes(g)
  {
    hide TlvFlags, ValueBytes, TotalLength, EvenValues, SameValues;
  }

  lemma GroupBits(g: Group, n: nat)
    requires Grouped(g, n) && n < 256
    ensures
      var f, total := TlvFlags(g, n), TotalLength(g);
      var all, one := |g.values| == n, |g.values| == 1;
      && (Bit(f, 128) <==> g.kind % 256 > 0)
      && (Bit(f, 64) <==> !all && one) && (Bit(f, 32) <==> !all && !one)
      && (Bit(f, 16) <==> total > 0) && (Bit(f, 8) <==> total > 255)
      && (Bit(f, 4) <==> !g.same) && f % 4 == 0
  {
    hide TotalLength, EvenValues, SameValues;
  }

  // Section 5.3 of RFC 5444: number of addresses, flags, head, tail, middle parts, prefix lengths. The
  // head is that of the block when it has more than one address, the tail the longest that all share.
  lemma BlockOnWire(addrs: seq<Address>, addrLen: nat, headLen: nat, multi: bool)
    requires Block(addrs, addrLen) && headLen < addrLen
    ensures
      var out := BlockBytes(addrs, addrLen, headLen, multi);
      var head := if |addrs| == 1 then 0 else headLen;
      var tail := if |addrs| == 1 then 0 else LongestTail(addrs, addrLen, addrLen - head - 1);
      var zero := AllZero(addrs[0].bytes[addrLen - tail..]);
      var at := 2 + if head > 0 then 1 + head else 0;
      && |out| >= at && out[0] == |addrs| && (Bit(out[1], 128) <==> head > 0)
      && (Bit(out[1], 64) <==> tail > 0 && !zero) && (Bit(out[1], 32) <==> tail > 0 && zero)
      && (Bit(out[1], 16) <==> !multi && addrs[0].plen != 8 * addrLen) && (Bit(out[1], 8) <==> multi)
      && out[1] % 8 == 0
      && (head > 0 ==> out[2] == head && out[3..at] == addrs[0].bytes[..head])
      && (tail > 0 ==> |out| > at && out[at] == tail)
      && (tail > 0 && !zero ==>
           |out| >= at + 1 + tail && out[at + 1..at + 1 + tail] == addrs[0].bytes[addrLen - tail..])
  {
    hide Flags, AllZero, LayoutOf, LongestTail, SameTail, SameHead, Mids, Bit, HeadPart, TailPart, PlenPart, BlockBytes;
    var l := LayoutOf(addrs, addrLen, headLen, multi);
    LayoutIs(addrs, addrLen, headLen, multi);
    BlockBits(l);
    var rest := BlockParts(addrs, addrLen, headLen, multi);
    var out := BlockBytes(addrs, addrLen, headLen, multi);
    Parts(out, [|addrs|, Flags(l)], HeadPart(addrs[0], l), TailPart(addrs[0], l), rest);
    HeadOnWire(out, 2, addrs[0], l);
    TailOnWire(out, 2 + |HeadPart(addrs[0], l)|, addrs[0], l);
  }

  // Behind them, the middle part of every address and the prefix lengths: one for each, one, or none.
  lemma AddressOnWire(addrs: seq<Address>, addrLen: nat, headLen: nat, multi: bool, i: nat)
    requires Block(addrs, addrLen) && headLen < addrLen && i < |addrs|
    ensures
      var out := BlockBytes(addrs, addrLen, headLen, multi);
      var l := LayoutOf(addrs, addrLen, headLen, multi);
      var mid := addrLen - l.head - l.tail;
      var plens := if multi then |addrs| else if addrs[0].plen != 8 * addrLen then 1 else 0;
      var start := 2 + (if l.head > 0 then 1 + l.head else 0)
                   + (if l.tail == 0 then 0 else if l.zeroTail then 1 else 1 + l.tail);
      && At(out, start + Area(mid, i), addrs[i].bytes[l.head..addrLen - l.tail])
      && |out| == start + Area(mid, |addrs|) + plens
      && (multi ==> out[|out| - plens + i] == addrs[i].plen)
      && (!multi && plens > 0 ==> out[|out| - 1] == addrs[0].plen)
  {
    hide At, Area, Flags, LongestTail, AllZero, Mids, BlockBytes, LayoutOf, HeadPart, TailPart;
    var l := LayoutOf(addrs, addrLen, headLen, multi);
    LayoutIs(addrs, addrLen, headLen, multi);
    var out := BlockBytes(addrs, addrLen, headLen, multi);
    WholeAt(out);
    BlockIs(addrs, addrLen, headLen, multi);
    var q, r, end := BlockStands(out, 0, addrs, addrLen, l);
    var mid := addrLen - l.head - l.tail;
    MidsAt(addrs, l.head, mid, i);
    AtWithin(out, q, Mids(addrs, l.head, addrLen - l.tail), Area(mid, i), addrs[i].bytes[l.head..addrLen - l.tail]);
    PartLengths(addrs[0], l);
    if multi {
      AtIndex(out, r, PlenPart(addrs, l), i);
    } else if l.single {
      AtIndex(out, r, PlenPart(addrs, l), 0);
    }
  }

  lemma HeadOnWire(out: seq<byte>, p: nat, first: Address, l: Layout)
    requires l.head <= |first.bytes| && l.head < 256 && p + |HeadPart(first, l)| <= |out|
    requires out[p..p + |HeadPart(first, l)|] == HeadPart(first, l)
    ensures |HeadPart(first, l)| == if l.head > 0 then 1 + l.head else 0
    ensures l.head > 0 ==> out[p] == l.head && out[p + 1..p + 1 + l.head] == first.bytes[..l.head]
  {
    if l.head > 0 {
      Behind(out, p, HeadPart(first, l));
    }
  }

  lemma TailOnWire(out: seq<byte>, p: nat, first: Address, l: Layout)
    requires l.tail <= |first.bytes| && l.tail < 256 && p + |TailPart(first, l)| <= |out|
    requires out[p..p + |TailPart(first, l)|] == TailPart(first, l)
    ensures |TailPart(first, l)| == if l.tail == 0 then 0 else if l.zeroTail then 1 else 1 + l.tail
    ensures l.tail > 0 ==> out[p] == l.tail
    ensures l.tail > 0 && !l.zeroTail ==> out[p + 1..p + 1 + l.tail] == first.bytes[|first.bytes| - l.tail..]
  {
    if l.tail > 0 {
      Behind(out, p, TailPart(first, l));
    }
  }

  lemma Behind(out: seq<byte>, p: nat, s: seq<byte>)
    requires p + |s| <= |out| && out[p..p + |s|] == s && s != []
    ensures out[p] == s[0] && out[p + 1..p + |s|] == s[1..]
  {
  }

  lemma BlockParts(addrs: seq<Address>, addrLen: nat, headLen: nat, multi: bool) returns (rest: seq<byte>)
    requires Block(addrs, addrLen) && headLen < addrLen
    ensures
      var l := LayoutOf(addrs, addrLen, headLen, multi);
      BlockBytes(addrs, addrLen, headLen, multi)
      == [|addrs|, Flags(l)] + HeadPart(addrs[0], l) + TailPart(addrs[0], l) + rest
  {
    hide Flags, LayoutOf, HeadPart, TailPart, Mids, PlenPart;
    var l := LayoutOf(addrs, addrLen, headLen, multi);
    rest := Mids(addrs, l.head, addrLen - l.tail) + PlenPart(addrs, l);
  }

  lemma BlockBits(l: Layout)
    ensures
      var f := Flags(l);
      && (Bit(f, 128) <==> l.head > 0)
      && (Bit(f, 64) <==> l.tail > 0 && !l.zeroTail) && (Bit(f, 32) <==> l.tail > 0 && l.zeroTail)
      && (Bit(f, 16) <==> !l.multi && l.single) && (Bit(f, 8) <==> l.multi) && f % 8 == 0
  {
  }

  // Section 5.3 of RFC 5444: an address block, the length of its TLV block, and the TLVs.
  lemma SectionOnWire(job: Job, b: Run, groups: seq<Group>)
    requires job.Sound() && Writable(job, b) && AllGrouped(groups, b.end + 1 - b.start)
    requires |GroupsBytes(groups, b.end + 1 - b.start)| < 65536
    ensures
      var out, tlvs := SectionBytes(job, b, groups), GroupsBytes(groups, b.end + 1 - b.start);
      var at := |out| - 2 - |tlvs|;
      && at >= 0 && Word(out, at) == |tlvs| && out[at + 2..] == tlvs && Block(Members(job, b), job.addrLen)
      && b.headLen < job.addrLen && out[..at] == BlockBytes(Members(job, b), job.addrLen, b.headLen, b.multi)
  {
    hide BlockBytes, GroupsBytes, Alike, SectionBytes, LengthField, Word, Members, Block, AllGrouped;
    SectionIs(job, b, groups);
    FieldBehind(BlockBytes(Members(job, b), job.addrLen, b.headLen, b.multi),
                GroupsBytes(groups, b.end + 1 - b.start));
  }

  lemma SectionIs(job: Job, b: Run, groups: seq<Group>)
    requires job.Sound() && Writable(job, b) && AllGrouped(groups, b.end + 1 - b.start)
    ensures Block(Members(job, b), job.addrLen) && b.headLen < job.addrLen
    ensures
      var tlvs := GroupsBytes(groups, b.end + 1 - b.start);
      SectionBytes(job, b, groups)
      == BlockBytes(Members(job, b), job.addrLen, b.headLen, b.multi) + (LengthField(|tlvs|) + tlvs)
  {
    hide BlockBytes, GroupsBytes, Alike, LengthField, AllGrouped;
    AlikePromised(job, b.start, b.end, b.headLen, b.multi);
  }

  lemma FieldBehind(block: seq<byte>, tlvs: seq<byte>)
    requires |tlvs| < 65536
    ensures
      var out := block + (LengthField(|tlvs|) + tlvs);
      && |out| == |block| + 2 + |tlvs| && out[..|block|] == block
      && Word(out, |block|) == |tlvs| && out[|block| + 2..] == tlvs
  {
  }

  // Section 5.2 of RFC 5444: the header, the length of the TLV block, the TLVs, and the address blocks. The
  // size field of the header counts all of it.
  lemma MessageOnWire(h: Header, addrLen: nat, ts: seq<Tlv>, body: seq<byte>)
    requires HeaderValid(h, addrLen) && WritableTlvs(ts) && |MessageBytes(h, addrLen, ts, body)| < 65536
    ensures
      var out := MessageBytes(h, addrLen, ts, body);
      var at := |HeaderBytes(h, addrLen, |out|)|;
      && out[..at] == HeaderBytes(h, addrLen, |out|) && |out| == at + 2 + |TlvsBytes(ts)| + |body|
      && Word(out, at) == |TlvsBytes(ts)| && out[at + 2..at + 2 + |TlvsBytes(ts)|] == TlvsBytes(ts)
      && out[at + 2 + |TlvsBytes(ts)|..] == body
  {
    hide HeaderBytes, TlvsBytes, WritableTlvs, HeaderSize;
    var size := HeaderSize(h) + |TlvBlockBytes(ts)| + |body|;
    HeaderLengths(h, addrLen, size);
    FieldBytes(|TlvsBytes(ts)|);
    assert TlvBlockBytes(ts) == LengthField(|TlvsBytes(ts)|) + TlvsBytes(ts);
    Parts(MessageBytes(h, addrLen, ts, body), HeaderBytes(h, addrLen, size), LengthField(|TlvsBytes(ts)|),
          TlvsBytes(ts), body);
  }
}
