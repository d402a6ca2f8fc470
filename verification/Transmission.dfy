// A message from end to end: fragments, bytes, and what the receivers see.
module Transmission {
  import opened Basics
  import opened Rfc5444
  import opened AddrBlock
  import opened AddrCompress
  import opened AddrFragment
  import opened AddrTlv
  import opened AddrTlvReader
  import opened MessageBody
  import opened MessageIo
  import opened Message
  import opened Packet

  // The sizes that the format can express: 255 addresses in a block, 16 bits for the message.
  predicate Expressible(f: Fragment, bytes: seq<byte>) {
    Narrow(f.blocks) && |bytes| < 65536
  }

  // Fragment k stands where the one before it ends.
  lemma {:induction false} SentAt(job: Job, fragments: seq<Fragment>, hi: nat, k: nat)
    requires job.Sound() && Sent(job, fragments, hi) && k < |fragments|
    ensures fragments[k].first <= fragments[k].end <= hi
    ensures Tiles(job, fragments[k].blocks, fragments[k].first, fragments[k].end)
    ensures fragments[k].first == if k == 0 then 0 else fragments[k - 1].end
    ensures fragments[|fragments| - 1].end == hi
    decreases |fragments|
  {
    hide Tiles;
    var n := |fragments| - 1;
    if k < n {
      SentAt(job, fragments[..n], fragments[n].first, k);
    } else if n > 0 {
      SentAt(job, fragments[..n], fragments[n].first, n - 1);
    }
  }

  // The TLV blocks of a message that fits 16 bits fit them, too.
  lemma {:induction false} BlocksFit(job: Job, blocks: seq<Run>, lists: seq<seq<Group>>, k: nat)
    requires job.Sound() && AllWritable(job, blocks) && GroupLists(job, blocks, lists) && k < |blocks|
    ensures |GroupsBytes(lists[k], blocks[k].end + 1 - blocks[k].start)| <= |BodyBytes(job, blocks, lists)|
    decreases |blocks|
  {
    hide BlockBytes, GroupsBytes, Writable, AllGrouped;
    if k > 0 {
      BlocksFit(job, blocks[1..], lists[1..], k - 1);
    }
  }

  lemma AllBlocksFit(job: Job, blocks: seq<Run>, lists: seq<seq<Group>>, trees: seq<seq<Tlv>>)
    requires job.Sound() && AllWritable(job, blocks) && GroupLists(job, blocks, lists)
    requires |BodyBytes(job, blocks, lists)| < 65536
    requires forall k | 0 <= k < |blocks| :: Means(lists[k], blocks[k], trees)
    ensures Filled(job, blocks, lists, trees)
  {
    hide BodyBytes, GroupsBytes, Means;
    forall k | 0 <= k < |blocks|
      ensures |GroupsBytes(lists[k], blocks[k].end + 1 - blocks[k].start)| < 65536
    {
      BlocksFit(job, blocks, lists, k);
    }
  }

  // _finalize_message_fragment: header, message TLVs, address blocks
  method WriteMessage(job: Job, blocks: seq<Run>, h: Header, ts: seq<Tlv>, trees: seq<seq<Tlv>>)
    returns (out: seq<byte>, ghost lists: seq<seq<Group>>)
    requires job.Sound() && AllWritable(job, blocks) && |trees| == |job.addrs| && AllTrees(trees)
    requires HeaderValid(h, job.addrLen) && WritableTlvs(ts)
    ensures GroupLists(job, blocks, lists) && forall k | 0 <= k < |blocks| :: Means(lists[k], blocks[k], trees)
    ensures out == MessageBytes(h, job.addrLen, ts, BodyBytes(job, blocks, lists))
  {
    hide AllWritable, GroupLists, BodyBytes, Means, AllTrees, WritableTlvs, TlvBlockBytes, HeaderBytes;
    hide HeaderSize, HeaderValid;
    var body := new BodyWriter();
    lists := body.WriteAddresses(job, blocks, trees);
    var block := TlvBlockBytes(ts);
    var header := WriteHeader(h, job.addrLen, HeaderSize(h) + |block| + |body.buffer.out|);
    assert body.buffer.out == BodyBytes(job, blocks, lists);
    out := header + block + body.buffer.out;
  }

  // What arrives of a message.
  datatype Arrived = Arrived(header: Header, tlvs: multiset<Tlv>, seen: seq<Seen>) | Lost(result: Result)

  // _handle_message, up to the calls of the consumers
  method ReadMessage(buf: seq<byte>, ghost job: Job, ghost blocks: seq<Run>, ghost lists: seq<seq<Group>>,
                     ghost h: Header, ghost ts: seq<Tlv>, ghost trees: seq<seq<Tlv>>, ghost lo: nat, ghost hi: nat)
    returns (a: Arrived)
    requires job.Sound() && |trees| == |job.addrs| && HeaderValid(h, job.addrLen) && WritableTlvs(ts)
    requires Tiles(job, blocks, lo, hi) && hi <= |job.addrs| && AllWritable(job, blocks)
    requires GroupLists(job, blocks, lists) && Filled(job, blocks, lists, trees)
    requires buf == MessageBytes(h, job.addrLen, ts, BodyBytes(job, blocks, lists)) && |buf| < 65536
    ensures a.Arrived? && a.header == h && a.tlvs == multiset(ts)
    ensures lo <= hi && |a.seen| == hi - lo && SeenFrom(a.seen, job, trees, lo)
  {
    hide MessageBytes, BodyBytes, AllWritable, GroupLists, Filled, Tiles, ParseMessage, WritableTlvs, SeenFrom;
    hide DeliversAll;
    ghost var body := BodyBytes(job, blocks, lists);
    WholeBuffer(buf);
    RoundTripMessage(buf, 0, |buf|, h, ts, job, blocks, lists, trees, body);
    var m := ParseMessage(buf, 0, |buf|);
    var result, seen := ReadFragment(buf, m.start, m.end, m.addrLen, job, blocks, lists, trees, lo, hi);
    a := Arrived(m.header, HandedAll(m.tlvs, buf, 0), seen);
  }

  lemma WholeBuffer(buf: seq<byte>)
    ensures At(buf, 0, buf)
  {
    assert buf[0..|buf|] == buf;
  }

  // One fragment is sent and received.
  method Transmit(job: Job, f: Fragment, h: Header, ts: seq<Tlv>, trees: seq<seq<Tlv>>)
    returns (bytes: seq<byte>, a: Arrived)
    requires job.Sound() && Tiles(job, f.blocks, f.first, f.end) && f.first <= f.end <= |job.addrs|
    requires Narrow(f.blocks)
    requires |trees| == |job.addrs| && AllTrees(trees) && HeaderValid(h, job.addrLen) && WritableTlvs(ts)
    ensures |bytes| < 65536 ==>
      && a.Arrived? && a.header == h && a.tlvs == multiset(ts)
      && |a.seen| == f.end - f.first && SeenFrom(a.seen, job, trees, f.first)
  {
    hide BodyBytes, AllWritable, GroupLists, Filled, Tiles, WritableTlvs, SeenFrom, Means, AllTrees, MessageBytes;
    TilesWritable(job, f.blocks, f.first, f.end);
    ghost var lists;
    bytes, lists := WriteMessage(job, f.blocks, h, ts, trees);
    if |bytes| < 65536 {
      BodyFits(job, h, ts, BodyBytes(job, f.blocks, lists));
      AllBlocksFit(job, f.blocks, lists, trees);
      a := ReadMessage(bytes, job, f.blocks, lists, h, ts, trees, f.first, f.end);
    } else {
      a := Lost(EndOfBuffer);
    }
  }

  lemma BodyFits(job: Job, h: Header, ts: seq<Tlv>, body: seq<byte>)
    requires HeaderValid(h, job.addrLen) && WritableTlvs(ts)
    ensures |body| <= |MessageBytes(h, job.addrLen, ts, body)|
  {
  }

  method IsNarrow(blocks: seq<Run>) returns (r: bool)
    ensures r <==> Narrow(blocks)
  {
    for k := 0 to |blocks|
      invariant forall j | 0 <= j < k :: blocks[j].end - blocks[j].start < 255
    {
      if blocks[k].end - blocks[k].start >= 255 {
        return false;
      }
    }
    return true;
  }

  // Every address of a message reaches the receivers once, in order, with exactly its TLVs, and every
  // fragment brings the header fields and the message TLVs, provided that the format can express the
  // fragments.
  method Deliver(job: Job, maxSize: int, h: Header, ts: seq<Tlv>, trees: seq<seq<Tlv>>)
    returns (r: Outcome, sent: seq<Fragment>, bytes: seq<seq<byte>>, arrived: seq<Arrived>, seen: seq<Seen>)
    requires job.Sound() && |trees| == |job.addrs| && AllTrees(trees) && HeaderValid(h, job.addrLen) && WritableTlvs(ts)
    requires forall k | 0 < k < |job.addrs| :: NewCost(job, k, 0) <= maxSize
    ensures r == MtuTooSmall <==> |job.addrs| > 0 && NewCost(job, 0, 0) > maxSize
    ensures r != Trapped && |bytes| == |arrived| == |sent| && (r == Done ==> Proper(job, sent))
    ensures |job.addrs| <= 255 ==> forall k | 0 <= k < |sent| :: Narrow(sent[k].blocks)
    ensures
      r == Done && (forall k | 0 <= k < |sent| :: Expressible(sent[k], bytes[k])) ==>
        && (forall k | 0 <= k < |sent| ::
             arrived[k].Arrived? && arrived[k].header == h && arrived[k].tlvs == multiset(ts))
        && |seen| == |job.addrs| && SeenFrom(seen, job, trees, 0)
  {
    hide Tiles, WritableTlvs, SeenFrom, AllTrees, Sent, HeaderValid, ExpandAll, Job.Sound, Modest, AloneBytes;
    var w := new Composer(job, maxSize);
    r := w.CreateMessage();
    sent, bytes, arrived, seen := w.sent, [], [], [];
    if r != Done {
      sent := [];
      return;
    }
    ghost var good := true;
    SeenNone(job, trees);
    for k := 0 to |sent|
      invariant |bytes| == |arrived| == k
      invariant |job.addrs| <= 255 ==> forall j | 0 <= j < k :: Narrow(sent[j].blocks)
      invariant good <==> forall j | 0 <= j < k :: Expressible(sent[j], bytes[j])
      invariant
        good ==> forall j | 0 <= j < k ::
          arrived[j].Arrived? && arrived[j].header == h && arrived[j].tlvs == multiset(ts)
      invariant good ==> |seen| == (if k == 0 then 0 else sent[k - 1].end) && SeenFrom(seen, job, trees, 0)
    {
      SentAt(job, sent, |job.addrs|, k);
      var narrow := IsNarrow(sent[k].blocks);
      TilesWritable(job, sent[k].blocks, sent[k].first, sent[k].end);
      if narrow {
        var out, a := Transmit(job, sent[k], h, ts, trees);
        bytes, arrived := bytes + [out], arrived + [a];
        good := good && |out| < 65536;
        if a.Arrived? {
          if good {
            SeenMore(seen, a.seen, job, trees, 0);
          }
          seen := seen + a.seen;
        }
      } else {
        bytes, arrived := bytes + [[]], arrived + [Lost(Undefined)];
        good := false;
      }
    }
    SentEnd(job, sent, |job.addrs|);
  }

  lemma SeenNone(job: Job, trees: seq<seq<Tlv>>)
    requires |trees| == |job.addrs|
    ensures SeenFrom([], job, trees, 0)
  {
  }

  lemma SentEnd(job: Job, fragments: seq<Fragment>, hi: nat)
    requires job.Sound() && Sent(job, fragments, hi)
    ensures hi == if fragments == [] then 0 else fragments[|fragments| - 1].end
  {
  }
}
