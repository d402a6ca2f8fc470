// The address part of a message: address blocks, each followed by its TLV block.
module MessageBody {
  import opened Basics
  import opened Rfc5444
  import opened AddrBlock
  import opened AddrBlockIo
  import opened AddrBlockReader
  import opened AddrCompress
  import opened AddrTlv
  import opened AddrTlvReader
  import opened AddrTlvWriter

  // ---- what is written ----

  // The addresses of a block.
  function Members(job: Job, b: Run): (s: seq<Address>)
    requires job.Sound() && Good(job, b)
    ensures |s| == b.end + 1 - b.start > 0
  {
    job.addrs[b.start..b.end + 1]
  }

  // Good blocks of at most 255 addresses.
  predicate Writable(job: Job, b: Run)
    requires job.Sound()
  {
    Good(job, b) && b.end - b.start < 255
  }

  predicate AllWritable(job: Job, blocks: seq<Run>)
    requires job.Sound()
  {
    forall k :: 0 <= k < |blocks| ==> Writable(job, blocks[k])
  }

  // The bytes of one address block and its TLV block.
  function SectionBytes(job: Job, b: Run, groups: seq<Group>): seq<byte>
    requires job.Sound() && Writable(job, b) && AllGrouped(groups, b.end + 1 - b.start)
  {
    AlikePromised(job, b.start, b.end, b.headLen, b.multi);
    var tlvs := GroupsBytes(groups, b.end + 1 - b.start);
    BlockBytes(Members(job, b), job.addrLen, b.headLen, b.multi) + (LengthField(|tlvs|) + tlvs)
  }

  // One list of TLV groups for each block.
  predicate GroupLists(job: Job, blocks: seq<Run>, lists: seq<seq<Group>>)
    requires job.Sound() && AllWritable(job, blocks)
  {
    |lists| == |blocks| && forall k :: 0 <= k < |blocks| ==> AllGrouped(lists[k], blocks[k].end + 1 - blocks[k].start)
  }

  function BodyBytes(job: Job, blocks: seq<Run>, lists: seq<seq<Group>>): seq<byte>
    requires job.Sound() && AllWritable(job, blocks) && GroupLists(job, blocks, lists)
  {
    if blocks == [] then []
    else SectionBytes(job, blocks[0], lists[0]) + BodyBytes(job, blocks[1..], lists[1..])
  }

  // The groups of a block give each of its addresses exactly the TLVs of its tree.
  predicate Means(groups: seq<Group>, b: Run, trees: seq<seq<Tlv>>) {
    b.end < |trees| && forall i :: 0 <= i <= b.end - b.start ==> Meaning(groups, i) == multiset(trees[b.start + i])
  }

  // ---- what is read ----

  datatype Section = Section(entry: Entry, tlvs: seq<TlvEntry>)

  datatype ParsedBody = ParsedBody(result: Result, sections: seq<Section>)

  lemma MidAdvances(buf: seq<byte>, c: Cursor, eob: nat, addrLen: nat, num: nat, flags: byte, addr: seq<byte>,
                    head: nat, mid: nat)
    requires eob <= |buf| && 1 <= addrLen <= MAX_ADDRLEN
    ensures var r := ParseMid(buf, c, eob, addrLen, num, flags, addr, head, mid);
      r.result == Okay ==> c.ptr <= r.ptr <= eob && r.entry.numAddr == num
  {
    hide HasFlag, Area;
  }

  lemma TailAdvances(buf: seq<byte>, c: Cursor, eob: nat, addrLen: nat, num: nat, flags: byte, addr: seq<byte>,
                     head: nat)
    requires eob <= |buf| && 1 <= addrLen <= MAX_ADDRLEN && |addr| == MAX_ADDRLEN && head < addrLen
    ensures var r := ParseTail(buf, c, eob, addrLen, num, flags, addr, head);
      r.result == Okay ==> c.ptr <= r.ptr <= eob && r.entry.numAddr == num
  {
    hide HasFlag, Overlay, ParseMid;
    var full, zero := HasFlag(flags, ADDR_FULLTAIL), HasFlag(flags, ADDR_ZEROTAIL);
    var (tail, c1) := GetU8(buf, c, eob);
    var mid := (addrLen - head - tail) % 256;
    MidAdvances(buf, c1, eob, addrLen, num, flags, addr, head, mid);
    MidAdvances(buf, c, eob, addrLen, num, flags, addr, head, addrLen - head);
    if full && !zero && 1 <= tail < MAX_ADDRLEN && tail < addrLen && c1.ptr + tail <= eob {
      var addr' := Overlay(addr, addrLen - tail, buf[c1.ptr..c1.ptr + tail]);
      MidAdvances(buf, Cursor(c1.ptr + tail, c1.result), eob, addrLen, num, flags, addr', head, mid);
    }
  }

  lemma HeadAdvances(buf: seq<byte>, c: Cursor, eob: nat, addrLen: nat, num: nat, flags: byte)
    requires eob <= |buf| && 1 <= addrLen <= MAX_ADDRLEN
    ensures var r := ParseHead(buf, c, eob, addrLen, num, flags);
      r.result == Okay ==> c.ptr <= r.ptr <= eob && r.entry.numAddr == num
  {
    hide HasFlag, Overlay, ParseTail;
    if HasFlag(flags, ADDR_HEAD) {
      var (head, c1) := GetU8(buf, c, eob);
      if 1 <= head < MAX_ADDRLEN && head < addrLen && c1.ptr + head <= eob {
        var addr := Overlay(Blank(), 0, buf[c1.ptr..c1.ptr + head]);
        TailAdvances(buf, Cursor(c1.ptr + head, c1.result), eob, addrLen, num, flags, addr, head);
      }
    } else {
      TailAdvances(buf, c, eob, addrLen, num, flags, Blank(), 0);
    }
  }

  lemma BlockAdvances(buf: seq<byte>, p: nat, end: nat, addrLen: nat)
    requires end <= |buf| && 1 <= addrLen <= MAX_ADDRLEN
    ensures var r := ParseBlock(buf, p, end, addrLen);
      r.result == Okay ==> p < r.ptr <= end && 0 < r.entry.numAddr < 256
  {
    hide ParseHead;
    var (num, c1) := GetU8(buf, Cursor(p, Okay), end);
    var (flags, c2) := GetU8(buf, c1, end);
    HeadAdvances(buf, c2, end, addrLen, num, flags);
  }

  lemma {:induction false} TlvsAdvance(buf: seq<byte>, p: nat, end: nat, eob: nat, n: byte)
    requires end <= eob <= |buf|
    ensures var r := ParseTlvs(buf, p, end, eob, n);
      r.result == Okay ==> p <= r.ptr && (p <= eob ==> r.ptr <= eob)
    decreases eob - p
  {
    hide ParseTlv;
    if p < end && ParseTlv(buf, p, eob, n).result == Okay {
      ParseAdvances(buf, p, eob, n);
      TlvsAdvance(buf, ParseTlv(buf, p, eob, n).ptr, end, eob, n);
    }
  }

  lemma TlvBlockAdvances(buf: seq<byte>, p: nat, eob: nat, n: byte)
    requires p <= eob <= |buf|
    ensures var r := ParseTlvBlock(buf, p, eob, n);
      r.result == Okay ==> p < r.ptr <= eob
  {
    hide ParseTlvs;
    var (length, c) := GetU16(buf, Cursor(p, Okay), eob);
    if p + 2 + length <= eob {
      TlvsAdvance(buf, c.ptr, p + 2 + length, eob, n);
    }
  }

  // The loop of _handle_message over the address blocks.
  function ParseBody(buf: seq<byte>, p: nat, end: nat, addrLen: nat): ParsedBody
    requires end <= |buf| && 1 <= addrLen <= MAX_ADDRLEN
    decreases end - p
  {
    if p >= end then ParsedBody(Okay, [])
    else
      var r := ParseBlock(buf, p, end, addrLen);
      if r.result != Okay then ParsedBody(r.result, [])
      else
        BlockAdvances(buf, p, end, addrLen);
        var t := ParseTlvBlock(buf, r.ptr, end, r.entry.numAddr);
        if t.result != Okay then ParsedBody(t.result, [])
        else
          TlvBlockAdvances(buf, r.ptr, end, r.entry.numAddr);
          var rest := ParseBody(buf, t.ptr, end, addrLen);
          if rest.result != Okay then ParsedBody(rest.result, [])
          else ParsedBody(Okay, [Section(r.entry, t.entries)] + rest.sections)
  }

  // ---- round trip ----

  // A section read back is the block that was written, with the TLVs of each address.
  predicate Delivers(s: Section, buf: seq<byte>, job: Job, b: Run, trees: seq<seq<Tlv>>)
    requires job.Sound()
  {
    && Good(job, b) && b.end < |trees| && s.entry.numAddr == b.end + 1 - b.start && Usable(s.entry, buf, job.addrLen)
    && (forall i :: 0 <= i <= b.end - b.start ==> Assembled(s.entry, buf, job.addrLen, i) == job.addrs[b.start + i])
    && (forall i :: 0 <= i <= b.end - b.start ==> HandedAll(s.tlvs, buf, i) == multiset(trees[b.start + i]))
    && InBuffer(s.tlvs, buf)
  }

  predicate InBuffer(entries: seq<TlvEntry>, buf: seq<byte>) {
    forall k, i :: 0 <= k < |entries| && entries[k].index1 <= i <= entries[k].index2 ==> Handed(entries[k], buf, i)
  }

  lemma MatchesInBuffer(entries: seq<TlvEntry>, buf: seq<byte>, groups: seq<Group>)
    requires MatchesAll(entries, buf, groups)
    ensures InBuffer(entries, buf)
  {
    hide Handed, HandedTlv;
  }

  lemma SectionParsed(buf: seq<byte>, p: nat, end: nat, job: Job, b: Run, groups: seq<Group>, trees: seq<seq<Tlv>>)
    requires job.Sound() && Writable(job, b) && AllGrouped(groups, b.end + 1 - b.start) && Means(groups, b, trees)
    requires |GroupsBytes(groups, b.end + 1 - b.start)| < 65536
    requires At(buf, p, SectionBytes(job, b, groups)) && p + |SectionBytes(job, b, groups)| <= end <= |buf|
    ensures var r := ParseBlock(buf, p, end, job.addrLen);
      && r.result == Okay && r.entry.numAddr < 256
      && var t := ParseTlvBlock(buf, r.ptr, end, r.entry.numAddr);
      && t.result == Okay && t.ptr == p + |SectionBytes(job, b, groups)|
      && Delivers(Section(r.entry, t.entries), buf, job, b, trees)
  {
    hide ParseBlock, ParseTlvBlock, BlockBytes, GroupsBytes, At, Usable, Assembled, AllGrouped, HandedAll;
    hide Meaning, MatchesAll, Alike, Promised, LengthField, InBuffer;
    var n := b.end + 1 - b.start;
    var tlvs := GroupsBytes(groups, n);
    AlikePromised(job, b.start, b.end, b.headLen, b.multi);
    PromisedBlock(Members(job, b), job.addrLen, b.headLen, b.multi);
    var block := BlockBytes(Members(job, b), job.addrLen, b.headLen, b.multi);
    FieldBytes(|tlvs|);
    AtSplit(buf, p, block, LengthField(|tlvs|) + tlvs);
    RoundTripBlock(buf, p, end, Members(job, b), job.addrLen, b.headLen, b.multi);
    RoundTripTlvs(buf, p + |block|, end, groups, n);
    MatchesInBuffer(ParseTlvBlock(buf, p + |block|, end, n).entries, buf, groups);
    MembersAre(job, b);
  }

  lemma MembersAre(job: Job, b: Run)
    requires job.Sound() && Good(job, b)
    ensures b.start <= b.end < |job.addrs|
    ensures forall i :: 0 <= i <= b.end - b.start ==> Members(job, b)[i] == job.addrs[b.start + i]
  {
  }

  lemma PromisedBlock(addrs: seq<Address>, addrLen: nat, headLen: nat, multi: bool)
    requires Promised(addrs, addrLen, headLen, multi)
    ensures Block(addrs, addrLen) && headLen < addrLen
  {
  }

  // Section by section, the body delivers the blocks.
  predicate DeliversAll(sections: seq<Section>, buf: seq<byte>, job: Job, blocks: seq<Run>, trees: seq<seq<Tlv>>)
    requires job.Sound()
  {
    |sections| == |blocks| && forall k :: 0 <= k < |blocks| ==> Delivers(sections[k], buf, job, blocks[k], trees)
  }

  // The TLV blocks fit their length fields, and every address has got its TLVs.
  predicate Filled(job: Job, blocks: seq<Run>, lists: seq<seq<Group>>, trees: seq<seq<Tlv>>)
    requires job.Sound() && AllWritable(job, blocks) && GroupLists(job, blocks, lists)
  {
    forall k :: 0 <= k < |blocks| ==>
      Means(lists[k], blocks[k], trees) && |GroupsBytes(lists[k], blocks[k].end + 1 - blocks[k].start)| < 65536
  }

  lemma {:induction false} BodyParsed(buf: seq<byte>, p: nat, end: nat, job: Job, blocks: seq<Run>,
                                      lists: seq<seq<Group>>, trees: seq<seq<Tlv>>)
    requires job.Sound() && AllWritable(job, blocks) && GroupLists(job, blocks, lists)
    requires Filled(job, blocks, lists, trees)
    requires At(buf, p, BodyBytes(job, blocks, lists)) && end == p + |BodyBytes(job, blocks, lists)|
    ensures end <= |buf| && var r := ParseBody(buf, p, end, job.addrLen);
      r.result == Okay && DeliversAll(r.sections, buf, job, blocks, trees)
    decreases |blocks|
  {
    hide At, SectionBytes, ParseBlock, ParseTlvBlock, Delivers, AllGrouped, Means, GroupsBytes, Writable;
    AtLength(buf, p, BodyBytes(job, blocks, lists));
    if blocks != [] {
      var first, rest := SectionBytes(job, blocks[0], lists[0]), BodyBytes(job, blocks[1..], lists[1..]);
      AtSplit(buf, p, first, rest);
      SectionParsed(buf, p, end, job, blocks[0], lists[0], trees);
      BlockAdvances(buf, p, end, job.addrLen);
      BodyParsed(buf, p + |first|, end, job, blocks[1..], lists[1..], trees);
      SectionLength(job, blocks[0], lists[0]);
    }
  }

  lemma SectionLength(job: Job, b: Run, groups: seq<Group>)
    requires job.Sound() && Writable(job, b) && AllGrouped(groups, b.end + 1 - b.start)
    ensures |SectionBytes(job, b, groups)| > 0
  {
    hide BlockBytes, GroupsBytes, Good;
  }
}
