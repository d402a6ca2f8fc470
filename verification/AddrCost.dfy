// What the compression session charges for a block, and what the block takes on the wire.
module AddrCost {
  import opened Basics
  import opened Rfc5444
  import opened AddrBlock
  import opened AddrCompress

  // The prefix length changes somewhere between address s and address e.
  predicate Mixed(job: Job, s: nat, e: nat) {
    exists j :: s < j <= e < |job.addrs| && job.addrs[j - 1].plen != job.addrs[j].plen
  }

  // The entry for a block that starts at address s, before address e is added.
  function BlockSlot(job: Job, s: nat, e: nat): Slot
    requires s < e
  {
    Slot(s, 0, 0, Mixed(job, s, e - 1), false)
  }

  // What the session charges for the block s..e with this head, one address after the other.
  function Charge(job: Job, s: nat, e: nat, head: nat): int
    requires s <= e < |job.addrs|
    decreases e
  {
    if s == e then NewCost(job, s, head)
    else
      var run := if job.addrs[e - 1].plen == job.addrs[e].plen then 2 else 1;
      Charge(job, s, e - 1, head) + ContinueCost(job, BlockSlot(job, s, e), e, head, run)
  }

  // The TLVs of the addresses s..e.
  function TlvCharge(job: Job, s: nat, e: nat): int
    requires s <= e < |job.addrs|
    decreases e
  {
    if s == e then job.begin(s) else TlvCharge(job, s, e - 1) + job.more(s, e)
  }

  // Without a tail: number and flags, the head, the rest of every address, and the prefix lengths.
  function Untailed(job: Job, s: nat, e: nat, head: nat): int
    requires s <= e < |job.addrs| && head < job.addrLen
  {
    2 + (if head > 0 then 1 + head else 0) + Area(job.addrLen - head, e - s + 1)
    + if Mixed(job, s, e) then e - s + 1 else if job.addrs[s].plen != 8 * job.addrLen then 1 else 0
  }

  lemma OneMore(job: Job, s: nat, e: nat, head: nat)
    requires s < e < |job.addrs| && head < job.addrLen
    ensures Area(job.addrLen - head, e - s + 1) == Area(job.addrLen - head, e - s) + job.addrLen - head
    ensures Mixed(job, s, e) <==> Mixed(job, s, e - 1) || job.addrs[e - 1].plen != job.addrs[e].plen
  {
    AreaStep(job.addrLen - head, e - s);
  }

  // The charge is exactly the size without a tail, with two bytes for the length of the TLV block and the
  // TLVs, unless the prefix length changes in the block: then it is too low.
  lemma {:induction false} ChargeExact(job: Job, s: nat, e: nat, head: nat)
    requires job.Sound() && s <= e < |job.addrs| && head < job.addrLen
    ensures !Mixed(job, s, e) ==> Charge(job, s, e, head) == Untailed(job, s, e, head) + 2 + TlvCharge(job, s, e)
    ensures Mixed(job, s, e) ==> Charge(job, s, e, head) < Untailed(job, s, e, head) + 2 + TlvCharge(job, s, e)
    decreases e
  {
    hide Area;
    if s < e {
      ChargeExact(job, s, e - 1, head);
      OneMore(job, s, e, head);
    } else {
      AreaOne(job.addrLen - head);
    }
  }

  lemma AreaOne(m: nat)
    ensures Area(m, 1) == m
  {
  }

  // The bytes of a block are never more than its size without a tail.
  lemma TailSaves(job: Job, s: nat, e: nat, head: nat, multi: bool)
    requires job.Sound() && Alike(job, s, e, head, multi) && e - s < 255 && multi == Mixed(job, s, e)
    ensures Block(job.addrs[s..e + 1], job.addrLen)
    ensures |BlockBytes(job.addrs[s..e + 1], job.addrLen, head, multi)| <= Untailed(job, s, e, head)
  {
    hide Area, Mixed, BlockBytes, LayoutOf, Alike;
    AlikePromised(job, s, e, head, multi);
    AlikeEnds(job, s, e, head, multi);
    var block, n := job.addrs[s..e + 1], e - s + 1;
    var l := LayoutOf(block, job.addrLen, head, multi);
    BlockSize(block, job.addrLen, head, multi);
    TailArea(job.addrLen - l.head, l.tail, n);
    AreaOne(job.addrLen);
    AreaOne(job.addrLen - head);
  }

  lemma AlikeEnds(job: Job, s: nat, e: nat, head: nat, multi: bool)
    requires job.Sound() && Alike(job, s, e, head, multi)
    ensures s <= e < |job.addrs| && head < job.addrLen
  {
  }

  lemma TailArea(m: nat, tail: nat, n: nat)
    requires tail <= m && n > 0 && (n == 1 ==> tail == 0)
    ensures Area(m - tail, n) + (if tail == 0 then 0 else 1 + tail) <= Area(m, n)
  {
    assert (m - tail) * n == m * n - tail * n;
    if tail > 0 {
      assert tail * n >= tail * 2;
    }
  }

  // What has been charged for a block without a change of the prefix length covers it: its bytes, the length
  // of its TLV block, and its TLVs.
  lemma Covered(job: Job, s: nat, e: nat, head: nat)
    requires job.Sound() && Alike(job, s, e, head, false) && e - s < 255 && !Mixed(job, s, e)
    ensures Block(job.addrs[s..e + 1], job.addrLen)
    ensures |BlockBytes(job.addrs[s..e + 1], job.addrLen, head, false)| + 2 + TlvCharge(job, s, e)
         <= Charge(job, s, e, head)
  {
    hide Area, Mixed, BlockBytes, Charge, Untailed, TlvCharge, Alike;
    AlikeEnds(job, s, e, head, false);
    TailSaves(job, s, e, head, false);
    ChargeExact(job, s, e, head);
  }

  // ---- the totals of the session ----

  // What all blocks of a fragment from address lo up to address p are charged, following the marks back.
  function CostTo(job: Job, links: seq<Link>, lo: nat, p: nat): int
    requires p <= |links| == |job.addrs|
    decreases p
  {
    if p <= lo then 0
    else match links[p - 1].blockStart
      case Some(s) =>
        if s < p then CostTo(job, links, lo, s) + Charge(job, s, p - 1, links[p - 1].headLen) else 0
      case None => 0
  }

  // The prefix length changes somewhere.
  predicate Varied(job: Job) {
    exists j :: 0 < j < |job.addrs| && job.addrs[j - 1].plen != job.addrs[j].plen
  }

  // Blocks are only marked for several prefix lengths when there are some.
  predicate TrueTo(job: Job, links: seq<Link>, lo: nat, p: nat)
    requires p <= |links| == |job.addrs|
    decreases p
  {
    p > lo ==>
      match links[p - 1].blockStart
      case Some(s) => s < p && (links[p - 1].multi ==> Varied(job)) && TrueTo(job, links, lo, s)
      case None => false
  }

  predicate Flagged(job: Job, blocks: seq<Run>) {
    forall i :: 0 <= i < |blocks| && blocks[i].multi ==> Varied(job)
  }

  // Marks that agree.
  predicate SameEnds(links: seq<Link>, links': seq<Link>, n: nat) {
    && n <= |links| == |links'|
    && forall j | 0 <= j < n ::
         && links'[j].blockStart == links[j].blockStart && links'[j].headLen == links[j].headLen
         && links'[j].multi == links[j].multi
  }

  // ... and of a list of blocks.
  function CostOf(job: Job, blocks: seq<Run>): int {
    if blocks == [] then 0
    else
      var b := blocks[0];
      (if b.start <= b.end < |job.addrs| then Charge(job, b.start, b.end, b.headLen) else 0) + CostOf(job, blocks[1..])
  }

  lemma {:induction false} CostFrame(job: Job, links: seq<Link>, links': seq<Link>, lo: nat, p: nat)
    requires p <= |links| == |links'| == |job.addrs| && SameEnds(links, links', p)
    ensures CostTo(job, links', lo, p) == CostTo(job, links, lo, p)
    ensures TrueTo(job, links', lo, p) == TrueTo(job, links, lo, p)
    decreases p
  {
    if p > lo && links[p - 1].blockStart.Some? && links[p - 1].blockStart.value < p {
      CostFrame(job, links, links', lo, links[p - 1].blockStart.value);
    }
  }

  lemma {:induction false} CostJoin(job: Job, b: Run, blocks: seq<Run>)
    requires b.start <= b.end < |job.addrs|
    ensures CostOf(job, [b] + blocks) == Charge(job, b.start, b.end, b.headLen) + CostOf(job, blocks)
  {
    assert ([b] + blocks)[1..] == blocks;
  }

  lemma PricedFrame(job: Job, links: seq<Link>, links': seq<Link>, lo: nat, k: nat, acs: seq<Slot>)
    requires k < |links| == |links'| == |job.addrs| && Priced(job, links, lo, k, acs)
    requires SameEnds(links, links', k)
    ensures Priced(job, links', lo, k, acs)
  {
    hide Charge, Mixed, CostTo, TrueTo;
    forall i | 0 <= i < |acs|
      ensures PricedSlot(job, links', lo, k, acs[i], i)
    {
      assert PricedSlot(job, links, lo, k, acs[i], i);
      CostFrame(job, links, links', lo, acs[i].ptr);
    }
  }

  // The open block of an entry when address k is in: all of it has been paid.
  predicate PricedSlot(job: Job, links: seq<Link>, lo: nat, k: nat, slot: Slot, i: nat)
    requires k < |links| == |job.addrs|
  {
    && lo <= slot.ptr <= k && slot.multi == Mixed(job, slot.ptr, k) && TrueTo(job, links, lo, slot.ptr)
    && slot.total == CostTo(job, links, lo, slot.ptr) + Charge(job, slot.ptr, k, i)
  }

  predicate Priced(job: Job, links: seq<Link>, lo: nat, k: nat, acs: seq<Slot>)
    requires k < |links| == |job.addrs|
  {
    |acs| == job.addrLen && forall i | 0 <= i < |acs| :: PricedSlot(job, links, lo, k, acs[i], i)
  }

  // The entry when address k has been offered to it: what it would cost, and what it costs without.
  predicate OfferedSlot(job: Job, links: seq<Link>, lo: nat, k: nat, slot: Slot, i: nat)
    requires k < |links| == |job.addrs|
  {
    && lo <= slot.ptr <= k && slot.multi == Mixed(job, slot.ptr, k) && TrueTo(job, links, lo, slot.ptr)
    && slot.total + slot.current == CostTo(job, links, lo, slot.ptr) + Charge(job, slot.ptr, k, i)
    && (slot.ptr == k ==> slot.total == CostTo(job, links, lo, k))
    && (lo < k ==> (slot.closed <==> slot.ptr == k))
    && (slot.ptr < k ==> slot.total == CostTo(job, links, lo, slot.ptr) + Charge(job, slot.ptr, k - 1, i))
  }

  predicate Offered(job: Job, links: seq<Link>, lo: nat, k: nat, acs: seq<Slot>)
    requires k < |links| == |job.addrs|
  {
    |acs| == job.addrLen && forall i | 0 <= i < |acs| :: OfferedSlot(job, links, lo, k, acs[i], i)
  }

  lemma MixedVaried(job: Job, s: nat, e: nat)
    ensures Mixed(job, s, e) ==> Varied(job)
  {
  }

  // A block that ends with address j, as it is marked from the best entry.
  lemma MarkPriced(job: Job, links: seq<Link>, lo: nat, k: nat, acs: seq<Slot>, common: nat)
    requires k < |links| == |job.addrs| && common < |acs| && Priced(job, links, lo, k, acs)
    requires links[k].blockStart.None?
    ensures
      var links' := links[k := Marked(acs, common, links[k])];
      CostTo(job, links', lo, k + 1) == acs[Best(acs, common)].total && TrueTo(job, links', lo, k + 1)
  {
    hide Charge, Mixed, Varied;
    var links', b := links[k := Marked(acs, common, links[k])], Best(acs, common);
    MixedVaried(job, acs[b].ptr, k);
    assert PricedSlot(job, links, lo, k, acs[b], b);
    CostFrame(job, links, links', lo, acs[b].ptr);
  }

  // The last address is marked again when the next one does not fit.
  lemma MarkOffered(job: Job, links: seq<Link>, lo: nat, k: nat, acs: seq<Slot>)
    requires lo < k < |links| == |job.addrs| && |acs| > 0 && Offered(job, links, lo, k, acs)
    requires links[k - 1].blockStart.Some?
    ensures
      var links' := links[k - 1 := Marked(acs, 0, links[k - 1])];
      CostTo(job, links', lo, k) == acs[Best(acs, 0)].total && TrueTo(job, links', lo, k)
  {
    hide Charge, Mixed, Varied;
    var links', b := links[k - 1 := Marked(acs, 0, links[k - 1])], Best(acs, 0);
    MixedVaried(job, acs[b].ptr, k);
    assert OfferedSlot(job, links, lo, k, acs[b], b);
    if acs[b].closed {
      CostFrame(job, links, links', lo, k);
    } else {
      CostFrame(job, links, links', lo, acs[b].ptr);
    }
  }

  lemma {:induction false} MixedStep(job: Job, s: nat, k: nat)
    requires s < k < |job.addrs|
    ensures Mixed(job, s, k) <==> Mixed(job, s, k - 1) || job.addrs[k - 1].plen != job.addrs[k].plen
    ensures !Mixed(job, k, k)
  {
  }

  // One entry when an address joins.
  lemma JoinSlot(job: Job, links: seq<Link>, links': seq<Link>, lo: nat, k: nat, slot: Slot, level: Slot, top: int,
                 i: nat, common: nat, run: nat)
    requires lo < k < |links| == |links'| == |job.addrs| && run >= 1
    requires PricedSlot(job, links, lo, k - 1, slot, i) && (i <= common ==> level == slot)
    requires top == CostTo(job, links', lo, k) && TrueTo(job, links', lo, k) && SameEnds(links, links', k - 1)
    ensures OfferedSlot(job, links', lo, k, Advanced(job, level, top, k, i, Some(common), NextRun(job, k, run)), i)
  {
    hide NewCost, Mixed;
    CostFrame(job, links, links', lo, slot.ptr);
    MixedStep(job, slot.ptr, k);
    JoinCharge(job, slot, k, i, run);
  }

  lemma JoinCharge(job: Job, slot: Slot, k: nat, i: nat, run: nat)
    requires slot.ptr < k < |job.addrs| && slot.multi == Mixed(job, slot.ptr, k - 1) && run >= 1
    ensures Charge(job, slot.ptr, k, i)
         == Charge(job, slot.ptr, k - 1, i) + ContinueCost(job, slot, k, i, NextRun(job, k, run))
    ensures Charge(job, k, k, i) == NewCost(job, k, i)
  {
    hide NewCost, Mixed;
  }

  // All entries when an address joins.
  lemma JoinPriced(job: Job, links: seq<Link>, links': seq<Link>, lo: nat, k: nat, before: seq<Slot>, after: seq<Slot>,
                   run: nat)
    requires job.Sound() && lo < k < |links| == |links'| == |job.addrs| && run >= 1
    requires Priced(job, links, lo, k - 1, before) && links[k - 1].blockStart.None?
    requires links' == links[k - 1 := Marked(before, CommonAt(job, k), links[k - 1])]
    requires Joined(job, before, after, k, NextRun(job, k, run))
    ensures Offered(job, links', lo, k, after)
  {
    hide Charge, Mixed, Advanced, NextRun, CostTo, PricedSlot, OfferedSlot, Marked;
    var common := CommonAt(job, k);
    MarkPriced(job, links, lo, k - 1, before, common);
    var level, last := Leveled(before, common), job.addrLen - 1;
    TopLeveled(before, common);
    forall i | 0 <= i < |after|
      ensures OfferedSlot(job, links', lo, k, after[i], i)
    {
      JoinSlot(job, links, links', lo, k, before[i], level[i], level[last].total, i, common, run);
    }
  }

  // The longest head has the total of the best block from the common head on.
  lemma TopLeveled(acs: seq<Slot>, common: nat)
    requires common < |acs|
    ensures Leveled(acs, common)[|acs| - 1].total == acs[Best(acs, common)].total
    ensures forall i | 0 <= i <= common :: Leveled(acs, common)[i] == acs[i]
  {
  }

  // The address has been taken.
  lemma TakePriced(job: Job, links: seq<Link>, lo: nat, k: nat, mid: seq<Slot>, after: seq<Slot>)
    requires k < |links| == |job.addrs| && Offered(job, links, lo, k, mid) && |after| == |mid|
    requires forall i | 0 <= i < |after| :: after[i] == mid[i].(total := mid[i].total + mid[i].current)
    ensures Priced(job, links, lo, k, after)
  {
    hide Charge, Mixed, CostTo;
    forall i | 0 <= i < |after|
      ensures PricedSlot(job, links, lo, k, after[i], i)
    {
      assert OfferedSlot(job, links, lo, k, mid[i], i);
    }
  }

  // The first address of a fragment.
  lemma StartOffered(job: Job, links: seq<Link>, k: nat, acs: seq<Slot>)
    requires k < |links| == |job.addrs| && |acs| == job.addrLen
    requires forall i | 0 <= i < |acs| :: acs[i] == Slot(k, 0, NewCost(job, k, i), false, false)
    ensures Offered(job, links, k, k, acs)
  {
    hide NewCost;
    assert !Mixed(job, k, k);
  }

  // ---- no fragment is dearer than a message may be ----

  // To continue a block is never much dearer than to start one.
  ghost predicate Gentle(job: Job) {
    forall s: nat, k: nat | s < k < |job.addrs| :: job.more(s, k) <= job.begin(k) + 3
  }

  predicate Cheap(acs: seq<Slot>, maxSize: int) {
    exists i :: 0 <= i < |acs| && acs[i].total <= maxSize
  }

  lemma GentleCost(job: Job, slot: Slot, k: nat, i: nat, run: nat)
    requires Gentle(job) && slot.ptr < k < |job.addrs|
    ensures ContinueCost(job, slot, k, i, run) <= NewCost(job, k, i)
  {
  }

  // Then the fragment stays as cheap as it is when another address is offered to it.
  lemma StaysCheap(job: Job, before: seq<Slot>, after: seq<Slot>, k: nat, run: nat, maxSize: int)
    requires job.Sound() && 0 < k < |job.addrs| && Joined(job, before, after, k, run) && Cheap(before, maxSize)
    requires Gentle(job) && forall i | 0 <= i < |before| :: before[i].ptr < k
    ensures Cheap(after, maxSize)
  {
    hide NewCost, ContinueCost, NextRun, Gentle;
    var common := CommonAt(job, k);
    var i :| 0 <= i < |before| && before[i].total <= maxSize;
    TopLeveled(before, common);
    if i <= common {
      GentleCost(job, before[i], k, i, run);
    }
    assert after[i].total <= maxSize;
  }

  lemma BestCheap(acs: seq<Slot>, maxSize: int)
    requires |acs| > 0
    ensures acs[Best(acs, 0)].total <= maxSize <==> Cheap(acs, maxSize)
  {
  }

  // ---- the size of a fragment ----

  // Blocks that can be written.
  predicate Short(job: Job, blocks: seq<Run>)
    requires job.Sound()
  {
    forall k :: 0 <= k < |blocks| ==> Good(job, blocks[k]) && blocks[k].end - blocks[k].start < 255
  }

  // One block: its bytes, the length of its TLV block, and what is charged for its TLVs.
  function BlockTotal(job: Job, b: Run): int
    requires job.Sound() && Good(job, b) && b.end - b.start < 255
  {
    AlikePromised(job, b.start, b.end, b.headLen, b.multi);
    |BlockBytes(job.addrs[b.start..b.end + 1], job.addrLen, b.headLen, b.multi)| + 2 + TlvCharge(job, b.start, b.end)
  }

  function SizeOf(job: Job, blocks: seq<Run>): int
    requires job.Sound() && Short(job, blocks)
  {
    if blocks == [] then 0 else BlockTotal(job, blocks[0]) + SizeOf(job, blocks[1..])
  }

  // With one prefix length for all addresses, the blocks take no more than they cost.
  lemma {:induction false} SizeCovered(job: Job, blocks: seq<Run>)
    requires job.Sound() && Short(job, blocks) && Flagged(job, blocks) && !Varied(job)
    ensures SizeOf(job, blocks) <= CostOf(job, blocks)
    decreases |blocks|
  {
    hide Charge, TlvCharge, BlockBytes, Varied;
    if blocks != [] {
      var b := blocks[0];
      SizeCovered(job, blocks[1..]);
      MixedVaried(job, b.start, b.end);
      Covered(job, b.start, b.end, b.headLen);
    }
  }
}
