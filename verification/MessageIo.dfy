// Writing the address part of a message fragment and reading it back.
module MessageIo {
  import opened Basics
  import opened Rfc5444
  import opened AddrBlock
  import opened AddrBlockIo
  import opened AddrBlockReader
  import opened AddrCompress
  import opened AddrTlv
  import opened AddrTlvReader
  import opened AddrTlvWriter
  import opened MessageBody

  lemma {:induction false} BodySnoc(job: Job, blocks: seq<Run>, lists: seq<seq<Group>>, b: Run, g: seq<Group>)
    requires job.Sound() && AllWritable(job, blocks) && GroupLists(job, blocks, lists)
    requires Writable(job, b) && AllGrouped(g, b.end + 1 - b.start)
    ensures AllWritable(job, blocks + [b]) && GroupLists(job, blocks + [b], lists + [g])
    ensures BodyBytes(job, blocks + [b], lists + [g]) == BodyBytes(job, blocks, lists) + SectionBytes(job, b, g)
    decreases |blocks|
  {
    hide SectionBytes, Writable, AllGrouped;
    if blocks == [] {
      assert (blocks + [b])[1..] == [] && (lists + [g])[1..] == [];
    } else {
      BodySnoc(job, blocks[1..], lists[1..], b, g);
      assert (blocks + [b])[1..] == blocks[1..] + [b] && (lists + [g])[1..] == lists[1..] + [g];
      assert blocks == [blocks[0]] + blocks[1..] && lists == [lists[0]] + lists[1..];
    }
  }

  predicate AllTrees(trees: seq<seq<Tlv>>) {
    forall i :: 0 <= i < |trees| ==> TlvTree(trees[i])
  }

  lemma BlockTrees(job: Job, b: Run, trees: seq<seq<Tlv>>)
    requires job.Sound() && Writable(job, b) && |trees| == |job.addrs| && AllTrees(trees)
    ensures b.start <= b.end < |trees| && Trees(trees[b.start..b.end + 1]) && 1 <= |Members(job, b)| <= 255
    ensures Block(Members(job, b), job.addrLen) && b.headLen < job.addrLen
  {
    AlikePromised(job, b.start, b.end, b.headLen, b.multi);
    PromisedBlock(Members(job, b), job.addrLen, b.headLen, b.multi);
    hide TlvTree;
  }

  lemma TreesMeant(groups: seq<Group>, b: Run, trees: seq<seq<Tlv>>)
    requires b.start <= b.end < |trees|
    requires forall i :: 0 <= i < b.end + 1 - b.start ==> Meaning(groups, i) == multiset(trees[b.start..b.end + 1][i])
    ensures Means(groups, b, trees)
  {
    hide Meaning;
    forall i | 0 <= i <= b.end - b.start
      ensures Meaning(groups, i) == multiset(trees[b.start + i])
    {
      assert trees[b.start..b.end + 1][i] == trees[b.start + i];
    }
  }

  lemma Patched(start: seq<byte>, block: seq<byte>, tlvs: seq<byte>, out: seq<byte>)
    requires out == start + block + [0, 0] + tlvs
    ensures var at := |start| + |block|;
      out[at := |tlvs| / 256 % 256][at + 1 := |tlvs| % 256] == start + (block + (LengthField(|tlvs|) + tlvs))
  {
  }

  class BodyWriter {
    const buffer: MessageBuffer
    const tlvs: TlvWriter

    constructor ()
      ensures Valid() && fresh(buffer) && fresh(tlvs) && buffer.out == []
    {
      var b := new MessageBuffer();
      var t := new TlvWriter(b);
      buffer, tlvs := b, t;
    }

    ghost predicate Valid() {
      tlvs.buffer == buffer
    }

    // One turn of the loop of _write_addresses.
    method WriteSection(job: Job, b: Run, trees: seq<seq<Tlv>>) returns (ghost groups: seq<Group>)
      requires Valid() && job.Sound() && Writable(job, b) && |trees| == |job.addrs| && AllTrees(trees)
      modifies buffer, tlvs
      ensures AllGrouped(groups, b.end + 1 - b.start) && Means(groups, b, trees)
      ensures buffer.out == old(buffer.out) + SectionBytes(job, b, groups)
    {
      BlockTrees(job, b, trees);
      ghost var start := buffer.out;
      ghost var block := BlockBytes(Members(job, b), job.addrLen, b.headLen, b.multi);
      hide BlockBytes, Meaning, GroupsBytes, Alike, Trees, AllTrees, Block, AllGrouped, LengthField;
      buffer.WriteBlock(Members(job, b), job.addrLen, b.headLen, b.multi);
      groups := WriteTlvBlock(trees[b.start..b.end + 1], start, block);
      TreesMeant(groups, b, trees);
    }

    // The TLV block behind an address block.
    method WriteTlvBlock(trees: seq<seq<Tlv>>, ghost start: seq<byte>, ghost block: seq<byte>)
      returns (ghost groups: seq<Group>)
      requires Valid() && Trees(trees) && buffer.out == start + block
      modifies buffer, tlvs
      ensures AllGrouped(groups, |trees|) && forall i :: 0 <= i < |trees| ==> Meaning(groups, i) == multiset(trees[i])
      ensures
        var body := GroupsBytes(groups, |trees|);
        buffer.out == start + (block + (LengthField(|body|) + body))
    {
      hide Meaning, GroupsBytes, TlvTree, AllGrouped, LengthField;
      // the length is filled in behind
      var lengthAt := |buffer.out|;
      buffer.out := buffer.out + [0, 0];
      groups := tlvs.WriteTlvs(trees);
      FillLength(lengthAt, start, block, GroupsBytes(groups, |trees|));
    }

    // tlvblock_length
    method FillLength(lengthAt: nat, ghost start: seq<byte>, ghost block: seq<byte>, ghost body: seq<byte>)
      requires buffer.out == start + block + [0, 0] + body && lengthAt == |start| + |block|
      modifies buffer
      ensures buffer.out == start + (block + (LengthField(|body|) + body))
    {
      hide LengthField;
      var length := |buffer.out| - lengthAt - 2;
      Patched(start, block, body, buffer.out);
      buffer.out := buffer.out[lengthAt := length / 256 % 256][lengthAt + 1 := length % 256];
    }

    // _write_addresses
    method WriteAddresses(job: Job, blocks: seq<Run>, trees: seq<seq<Tlv>>) returns (ghost lists: seq<seq<Group>>)
      requires Valid() && job.Sound() && AllWritable(job, blocks) && |trees| == |job.addrs| && AllTrees(trees)
      modifies buffer, tlvs
      ensures GroupLists(job, blocks, lists) && buffer.out == old(buffer.out) + BodyBytes(job, blocks, lists)
      ensures forall k :: 0 <= k < |blocks| ==> Means(lists[k], blocks[k], trees)
    {
      hide Writable, SectionBytes, Means, AllTrees, AllGrouped;
      ghost var start := buffer.out;
      lists := [];
      var k := 0;
      assert blocks[..0] == [];
      while k < |blocks|
        invariant 0 <= k <= |blocks| && GroupLists(job, blocks[..k], lists)
        invariant buffer.out == start + BodyBytes(job, blocks[..k], lists)
        invariant forall j :: 0 <= j < k ==> Means(lists[j], blocks[j], trees)
      {
        ghost var groups := WriteSection(job, blocks[k], trees);
        BodySnoc(job, blocks[..k], lists, blocks[k], groups);
        assert blocks[..k + 1] == blocks[..k] + [blocks[k]];
        lists := lists + [groups];
        k := k + 1;
      }
      assert blocks[..k] == blocks;
    }
  }

  // The parsed address blocks as objects.
  ghost predicate Holding(entries: seq<AddrEntry>, tlvs: seq<seq<TlvEntry>>, sections: seq<Section>)
    reads entries, set e | e in entries :: e.addr
  {
    && |entries| == |sections| == |tlvs|
    && (forall k :: 0 <= k < |entries| ==>
         entries[k].Valid() && entries[k].Contents() == sections[k].entry && tlvs[k] == sections[k].tlvs)
    && forall j, k :: 0 <= j < k < |entries| ==> entries[j] != entries[k] && entries[j].addr != entries[k].addr
  }

  // An address as the consumers see it.
  datatype Seen = Seen(address: Address, tlvs: seq<Tlv>)

  // Addresses lo, lo + 1, ... of the message with their TLVs.
  predicate SeenFrom(seen: seq<Seen>, job: Job, trees: seq<seq<Tlv>>, lo: nat) {
    && lo + |seen| <= |job.addrs| == |trees|
    && forall i :: 0 <= i < |seen| ==>
         seen[i].address == job.addrs[lo + i] && multiset(seen[i].tlvs) == multiset(trees[lo + i])
  }

  lemma SectionsShift(a: seq<Section>, e: Section, b: seq<Section>)
    ensures a + ([e] + b) == a + [e] + b
  {
  }

  lemma HoldingMore(entries: seq<AddrEntry>, tlvs: seq<seq<TlvEntry>>, sections: seq<Section>, e: AddrEntry,
                    list: seq<TlvEntry>)
    requires Holding(entries, tlvs, sections) && e.Valid()
    requires forall k | 0 <= k < |entries| :: entries[k] != e && entries[k].addr != e.addr
    ensures Holding(entries + [e], tlvs + [list], sections + [Section(e.Contents(), list)])
  {
    hide AddrEntry.Valid, AddrEntry.Contents;
  }

  // The loop of _handle_message over the address blocks.
  method ReadBody(buf: seq<byte>, p: nat, end: nat, addrLen: nat)
    returns (result: Result, entries: seq<AddrEntry>, tlvs: seq<seq<TlvEntry>>)
    requires end <= |buf| && 1 <= addrLen <= MAX_ADDRLEN
    ensures result == ParseBody(buf, p, end, addrLen).result
    ensures result == Okay ==> Holding(entries, tlvs, ParseBody(buf, p, end, addrLen).sections)
    ensures fresh(entries) && forall e :: e in entries ==> fresh(e.addr)
  {
    hide ParseBlock, ParseTlvBlock;
    var ptr := p;
    ghost var sections: seq<Section> := [];
    ghost var whole := ParseBody(buf, p, end, addrLen);
    result, entries, tlvs := Okay, [], [];
    while ptr < end
      invariant var rest := ParseBody(buf, ptr, end, addrLen);
        if rest.result == Okay then whole == ParsedBody(Okay, sections + rest.sections)
        else whole == ParsedBody(rest.result, [])
      invariant result == Okay && Holding(entries, tlvs, sections) && fresh(entries)
      invariant forall e :: e in entries ==> fresh(e.addr)
      decreases end - ptr
    {
      BlockAdvances(buf, ptr, end, addrLen);
      var entry := new AddrEntry();
      var q;
      result, q := entry.Parse(buf, ptr, end, addrLen);
      if result != Okay {
        return;
      }
      TlvBlockAdvances(buf, q, end, entry.numAddr);
      var list, r;
      result, list, r := ReadTlvBlock(buf, q, end, entry.numAddr);
      if result != Okay {
        return;
      }
      ghost var section := Section(entry.Contents(), list);
      HoldingMore(entries, tlvs, sections, entry, list);
      SectionsShift(sections, section, ParseBody(buf, r, end, addrLen).sections);
      entries, tlvs, sections := entries + [entry], tlvs + [list], sections + [section];
      ptr := r;
    }
    assert sections + [] == sections;
  }

  lemma DeliversFacts(s: Section, buf: seq<byte>, job: Job, b: Run, trees: seq<seq<Tlv>>, i: nat)
    requires job.Sound() && |trees| == |job.addrs| && Delivers(s, buf, job, b, trees) && i < s.entry.numAddr
    ensures b.start + i <= b.end < |job.addrs| && Usable(s.entry, buf, job.addrLen) && InBuffer(s.tlvs, buf)
    ensures s.entry.numAddr == b.end + 1 - b.start && Assembled(s.entry, buf, job.addrLen, i) == job.addrs[b.start + i]
    ensures HandedAll(s.tlvs, buf, i) == multiset(trees[b.start + i])
  {
  }

  lemma DeliversBounds(s: Section, buf: seq<byte>, job: Job, b: Run, trees: seq<seq<Tlv>>)
    requires job.Sound() && Delivers(s, buf, job, b, trees)
    ensures b.start <= b.end < |job.addrs| && s.entry.numAddr == b.end + 1 - b.start
    ensures s.entry.midStart + s.entry.midLen <= |s.entry.addr|
  {
  }

  // schedule_msgaddr_consumer, for one address
  method DeliverOne(entry: AddrEntry, tlvs: seq<TlvEntry>, buf: seq<byte>, addrLen: nat, i: nat, ghost s: Section,
                    ghost job: Job, ghost b: Run, ghost trees: seq<seq<Tlv>>) returns (x: Seen)
    requires job.Sound() && addrLen == job.addrLen && |trees| == |job.addrs| && Delivers(s, buf, job, b, trees)
    requires entry.Valid() && entry.Filled(s.entry) && tlvs == s.tlvs && i < s.entry.numAddr
    modifies entry.addr
    ensures entry.Filled(s.entry) && b.start + i < |job.addrs|
    ensures x.address == job.addrs[b.start + i] && multiset(x.tlvs) == multiset(trees[b.start + i])
  {
    DeliversFacts(s, buf, job, b, trees, i);
    hide *;
    var address := entry.AssembleOne(buf, addrLen, i, s.entry);
    TlvsInBuffer(tlvs, buf, i);
    var calls := ScheduleTlvs(tlvs, buf, i);
    x := Seen(address, calls);
  }

  // ... and for one address block
  method DeliverSection(entry: AddrEntry, tlvs: seq<TlvEntry>, buf: seq<byte>, addrLen: nat, ghost s: Section,
                        ghost job: Job, ghost b: Run, ghost trees: seq<seq<Tlv>>) returns (seen: seq<Seen>)
    requires job.Sound() && addrLen == job.addrLen && |trees| == |job.addrs| && Delivers(s, buf, job, b, trees)
    requires entry.Valid() && entry.Contents() == s.entry && tlvs == s.tlvs
    modifies entry.addr
    ensures SeenFrom(seen, job, trees, b.start) && |seen| == b.end + 1 - b.start
  {
    DeliversBounds(s, buf, job, b, trees);
    hide Delivers, Job.Sound;
    seen := [];
    var i := 0;
    assert entry.Filled(s.entry);
    while i < entry.numAddr
      invariant 0 <= i <= entry.numAddr && |seen| == i && entry.Filled(s.entry)
      invariant SeenFrom(seen, job, trees, b.start)
    {
      hide AddrEntry.Filled, SeenFrom;
      var x := DeliverOne(entry, tlvs, buf, addrLen, i, s, job, b, trees);
      SeenOne(seen, x, job, trees, b.start);
      seen := seen + [x];
      i := i + 1;
    }
  }

  lemma SeenOne(a: seq<Seen>, s: Seen, job: Job, trees: seq<seq<Tlv>>, lo: nat)
    requires SeenFrom(a, job, trees, lo) && lo + |a| < |job.addrs| == |trees|
    requires s.address == job.addrs[lo + |a|] && multiset(s.tlvs) == multiset(trees[lo + |a|])
    ensures SeenFrom(a + [s], job, trees, lo)
  {
  }

  lemma TlvsInBuffer(entries: seq<TlvEntry>, buf: seq<byte>, i: nat)
    requires InBuffer(entries, buf)
    ensures forall k :: 0 <= k < |entries| && entries[k].index1 <= i <= entries[k].index2 ==> Handed(entries[k], buf, i)
  {
  }

  // schedule_msgaddr_consumer: the consumers see the addresses of the fragment, in order, each with its TLVs.
  method Deliver(entries: seq<AddrEntry>, tlvs: seq<seq<TlvEntry>>, buf: seq<byte>, addrLen: nat,
                 ghost sections: seq<Section>, ghost job: Job, ghost blocks: seq<Run>, ghost trees: seq<seq<Tlv>>,
                 ghost lo: nat, ghost hi: nat) returns (seen: seq<Seen>)
    requires job.Sound() && addrLen == job.addrLen && |trees| == |job.addrs| && lo <= hi <= |job.addrs|
    requires Holding(entries, tlvs, sections) && DeliversAll(sections, buf, job, blocks, trees)
    requires Tiles(job, blocks, lo, hi)
    modifies set e | e in entries :: e.addr
    ensures SeenFrom(seen, job, trees, lo) && |seen| == hi - lo
  {
    hide Delivers, Good;
    seen := [];
    var k := 0;
    assert blocks[0..] == blocks;
    while k < |entries|
      invariant 0 <= k <= |entries|
      invariant lo + |seen| <= hi && Tiles(job, blocks[k..], lo + |seen|, hi) && SeenFrom(seen, job, trees, lo)
      invariant forall j :: k <= j < |entries| ==> entries[j].Valid() && entries[j].Contents() == sections[j].entry
    {
      assert blocks[k..][0] == blocks[k] && blocks[k..][1..] == blocks[k + 1..];
      DeliversBounds(sections[k], buf, job, blocks[k], trees);
      var more := DeliverSection(entries[k], tlvs[k], buf, addrLen, sections[k], job, blocks[k], trees);
      SeenMore(seen, more, job, trees, lo);
      seen := seen + more;
      k := k + 1;
    }
    assert blocks[k..] == [];
  }

  lemma SeenMore(a: seq<Seen>, b: seq<Seen>, job: Job, trees: seq<seq<Tlv>>, lo: nat)
    requires SeenFrom(a, job, trees, lo) && SeenFrom(b, job, trees, lo + |a|)
    ensures SeenFrom(a + b, job, trees, lo)
  {
    forall i | 0 <= i < |a + b|
      ensures (a + b)[i].address == job.addrs[lo + i] && multiset((a + b)[i].tlvs) == multiset(trees[lo + i])
    {
      if i >= |a| {
        assert (a + b)[i] == b[i - |a|];
      }
    }
  }

  // Whatever blocks the compression has chosen for a fragment, reading the bytes written for it
  // hands the consumers the addresses of the fragment, in order, each with exactly its TLVs.
  method ReadFragment(buf: seq<byte>, p: nat, end: nat, addrLen: nat, ghost job: Job, ghost blocks: seq<Run>,
                      ghost lists: seq<seq<Group>>, ghost trees: seq<seq<Tlv>>, ghost lo: nat, ghost hi: nat)
    returns (result: Result, seen: seq<Seen>)
    requires job.Sound() && addrLen == job.addrLen && |trees| == |job.addrs| && end <= |buf|
    requires Tiles(job, blocks, lo, hi) && hi <= |job.addrs| && AllWritable(job, blocks)
    requires GroupLists(job, blocks, lists) && Filled(job, blocks, lists, trees)
    requires At(buf, p, BodyBytes(job, blocks, lists)) && end == p + |BodyBytes(job, blocks, lists)|
    ensures result == Okay && lo <= hi && |seen| == hi - lo && SeenFrom(seen, job, trees, lo)
  {
    SoundLength(job);
    TilesExpand(job, blocks, lo, hi);
    hide Tiles, BodyBytes, At, Filled, AllWritable, GroupLists, ParseBody, DeliversAll, Holding;
    BodyParsed(buf, p, end, job, blocks, lists, trees);
    var entries, tlvs;
    result, entries, tlvs := ReadBody(buf, p, end, addrLen);
    seen := Deliver(entries, tlvs, buf, addrLen, ParseBody(buf, p, end, addrLen).sections, job, blocks, trees, lo, hi);
  }

  lemma SoundLength(job: Job)
    requires job.Sound()
    ensures 1 <= job.addrLen <= MAX_ADDRLEN
  {
  }

  // The number of addresses of a block fits its byte.
  predicate Narrow(blocks: seq<Run>) {
    forall k | 0 <= k < |blocks| :: blocks[k].end - blocks[k].start < 255
  }

  lemma {:induction false} TilesWritable(job: Job, blocks: seq<Run>, lo: nat, hi: nat)
    requires job.Sound() && Tiles(job, blocks, lo, hi)
    ensures AllWritable(job, blocks) <==> Narrow(blocks)
    ensures lo <= hi && (hi - lo <= 255 ==> Narrow(blocks))
    decreases |blocks|
  {
    hide Alike;
    if blocks != [] {
      var b, rest := blocks[0], blocks[1..];
      GoodOrder(job, b);
      TilesWritable(job, rest, b.end + 1, hi);
      assert forall k | 1 <= k < |blocks| :: blocks[k] == rest[k - 1];
      assert forall k | 0 <= k < |rest| :: rest[k] == blocks[k + 1];
      assert Writable(job, b) <==> b.end - b.start < 255;
    }
  }

  lemma GoodOrder(job: Job, b: Run)
    requires job.Sound() && Good(job, b)
    ensures b.start <= b.end
  {
  }
}
