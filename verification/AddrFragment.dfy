// Message fragmentation: the loop that fills one message after the other with addresses.
module AddrFragment {
  import opened Basics
  import opened Rfc5444
  import opened AddrBlock
  import opened AddrCompress
  import opened AddrCost

  // What becomes of a message; the loop runs forever when it is trapped.
  datatype Outcome = Done | MtuTooSmall | Trapped

  // The addresses first..end of a message fragment and the blocks they are written in.
  datatype Fragment = Fragment(first: nat, end: nat, blocks: seq<Run>)

  // The fragments hold the first `hi` addresses, each one once and in order.
  predicate Sent(job: Job, fragments: seq<Fragment>, hi: nat)
    requires job.Sound()
    decreases |fragments|
  {
    if fragments == [] then hi == 0
    else
      var f := fragments[|fragments| - 1];
      f.end == hi && f.first <= f.end && Tiles(job, f.blocks, f.first, f.end)
      && Sent(job, fragments[..|fragments| - 1], f.first)
  }

  // A message without addresses is sent once; every other fragment has some.
  predicate Proper(job: Job, fragments: seq<Fragment>) {
    if job.addrs == [] then |fragments| == 1 else NonEmpty(fragments)
  }

  predicate NonEmpty(fragments: seq<Fragment>) {
    forall i :: 0 <= i < |fragments| ==> fragments[i].first < fragments[i].end
  }

  // Blocks are flagged for several prefix lengths only when there are some, and where continuing a block
  // never costs much more than starting one, no fragment is dearer than a message may be.
  ghost predicate Modest(job: Job, fragments: seq<Fragment>, maxSize: int) {
    forall i :: 0 <= i < |fragments| && fragments[i].first < fragments[i].end ==>
      Flagged(job, fragments[i].blocks) && (Gentle(job) ==> CostOf(job, fragments[i].blocks) <= maxSize)
  }

  // The smallest total.
  function Least(acs: seq<Slot>): int
    requires acs != []
  {
    acs[Best(acs, 0)].total
  }

  // What the last fragment costs.
  function LastCost(job: Job, fragments: seq<Fragment>): int {
    if fragments == [] then 0 else CostOf(job, fragments[|fragments| - 1].blocks)
  }

  lemma ModestMore(job: Job, fragments: seq<Fragment>, f: Fragment, maxSize: int)
    requires Modest(job, fragments, maxSize)
    requires f.first < f.end ==> Flagged(job, f.blocks) && (Gentle(job) ==> CostOf(job, f.blocks) <= maxSize)
    ensures Modest(job, fragments + [f], maxSize)
  {
  }

  // The promise of the maximum size: with one prefix length for all addresses, what is sent fits.
  lemma FragmentsFit(job: Job, fragments: seq<Fragment>, maxSize: int, i: nat)
    requires job.Sound() && i < |fragments| && fragments[i].first < fragments[i].end
    requires Modest(job, fragments, maxSize) && Gentle(job) && !Varied(job) && Short(job, fragments[i].blocks)
    ensures SizeOf(job, fragments[i].blocks) <= maxSize
  {
    hide Varied, SizeOf, CostOf, Gentle, Short;
    SizeCovered(job, fragments[i].blocks);
  }

  // All addresses of all fragments.
  function ExpandAll(job: Job, fragments: seq<Fragment>): seq<Address> {
    if fragments == [] then []
    else ExpandAll(job, fragments[..|fragments| - 1]) + Expand(job, fragments[|fragments| - 1].blocks)
  }

  // Nothing is lost or repeated: the fragments concatenate to the addresses of the message.
  lemma {:induction false} SentExpand(job: Job, fragments: seq<Fragment>, hi: nat)
    requires job.Sound() && hi <= |job.addrs| && Sent(job, fragments, hi)
    ensures ExpandAll(job, fragments) == job.addrs[..hi]
    decreases |fragments|
  {
    if fragments != [] {
      var f := fragments[|fragments| - 1];
      TilesExpand(job, f.blocks, f.first, f.end);
      SentExpand(job, fragments[..|fragments| - 1], f.first);
      assert job.addrs[..hi] == job.addrs[..f.first] + job.addrs[f.first..hi];
    }
  }

  // The positions lo..hi.
  function Positions(lo: nat, hi: nat): (p: seq<nat>)
    requires lo <= hi
    ensures |p| == hi - lo && forall i :: 0 <= i < |p| ==> p[i] == lo + i
  {
    seq(hi - lo, i requires 0 <= i < hi - lo => lo + i)
  }

  // Addresses lo..hi have been numbered one after the other.
  predicate Indexed(links: seq<Link>, lo: nat, hi: nat, idx: nat) {
    lo <= hi <= |links| && hi - lo <= idx && forall j :: lo <= j < hi ==> links[j].index == idx - (hi - j)
  }

  // Every address of lo..hi except the last one knows the block that could end with it.
  predicate EndedAll(job: Job, links: seq<Link>, lo: nat, hi: nat)
    requires job.Sound()
  {
    hi <= |links| && forall j :: lo <= j < hi ==> Ended(job, links[j], lo, j)
  }

  lemma NoneEnded(job: Job, links: seq<Link>, lo: nat)
    requires job.Sound() && lo <= |links|
    ensures EndedAll(job, links, lo, lo)
  {
  }

  predicate Unstarted(links: seq<Link>, from: nat) {
    forall j :: from <= j < |links| ==> links[j].blockStart == None
  }

  predicate DoneUpTo(links: seq<Link>, next: nat) {
    forall j :: 0 <= j < |links| ==> (links[j].done <==> j < next)
  }

  lemma BestFound(acs: seq<Slot>, from: nat, b: nat)
    requires from <= b < |acs| && (forall i :: from <= i < |acs| ==> acs[b].total <= acs[i].total)
    requires forall i :: from <= i < b ==> acs[b].total < acs[i].total
    ensures b == Best(acs, from)
  {
  }

  // The cost of an entry stays in the message and its block below 256 addresses.
  predicate Fits(slot: Slot, maxSize: int, k: nat) {
    slot.total + slot.current <= maxSize && k - slot.ptr <= 254
  }

  predicate SomeFits(acs: seq<Slot>, maxSize: int, k: nat) {
    exists i :: 0 <= i < |acs| && Fits(acs[i], maxSize, k)
  }

  // Address j got its block end, nothing else changed.
  predicate MarkedLinks(before: seq<Link>, after: seq<Link>, lo: nat, j: nat) {
    && j < |before| == |after| && after == before[j := after[j]]
    && after[j].index == before[j].index && after[j].done == before[j].done
  }

  lemma LinksMarked(job: Job, before: seq<Link>, after: seq<Link>, acs: seq<Slot>, common: nat, lo: nat, last: nat,
                    hi: nat, idx: nat)
    requires job.Sound() && common < |acs| && last < |before| && Indexed(before, lo, hi, idx)
    requires after == before[last := Marked(acs, common, before[last])]
    ensures MarkedLinks(before, after, lo, last) && Indexed(after, lo, hi, idx)
  {
  }

  // Forward pointers leave the other fields alone.
  predicate SameMarks(before: seq<Link>, after: seq<Link>) {
    |before| == |after|
    && forall j :: 0 <= j < |before| ==>
         && after[j].index == before[j].index && after[j].done == before[j].done
         && after[j].blockStart == before[j].blockStart
  }

  // Entries that differ in their costs only.
  predicate SameBlocks(before: seq<Slot>, after: seq<Slot>) {
    |before| == |after|
    && forall i :: 0 <= i < |before| ==> after[i].ptr == before[i].ptr && after[i].multi == before[i].multi
  }

  lemma OpenSame(job: Job, before: seq<Slot>, after: seq<Slot>, lo: nat, cur: nat)
    requires job.Sound() && Open(job, before, lo, cur) && SameBlocks(before, after)
    ensures Open(job, after, lo, cur)
  {
    hide Alike;
  }

  lemma OpenBounds(job: Job, acs: seq<Slot>, lo: nat, cur: nat)
    requires job.Sound() && Open(job, acs, lo, cur)
    ensures forall i :: 0 <= i < |acs| ==> lo <= acs[i].ptr <= cur
  {
  }

  lemma Empty(job: Job, links: seq<Link>, hi: nat)
    requires job.Sound() && hi <= |links|
    ensures Chain(links, hi, hi) == [] && Tiles(job, [], hi, hi)
  {
  }

  lemma ChainHead(job: Job, links: seq<Link>, s: nat, hi: nat)
    requires job.Sound() && s < hi <= |links| && Tiles(job, Chain(links, s, hi), s, hi)
    ensures links[s].blockEnd.Some? && s <= links[s].blockEnd.value < hi
    ensures var e := links[s].blockEnd.value;
      && Chain(links, s, hi) == [Run(s, e, links[s].headLen, links[s].multi)] + Chain(links, e + 1, hi)
      && Tiles(job, Chain(links, e + 1, hi), e + 1, hi)
  {
    hide Good;
    assert Chain(links, s, hi)[1..] == Chain(links, links[s].blockEnd.value + 1, hi);
  }

  // The block of the entry with the smallest total, up to address j.
  function Closing(acs: seq<Slot>, j: nat): Run
    requires acs != []
  {
    var b := Best(acs, 0);
    Run(acs[b].ptr, j, b, acs[b].multi)
  }

  lemma ClosedRun(link: Link, acs: seq<Slot>, links: seq<Link>, j: nat)
    requires acs != [] && j < |links| && link.blockStart.None? && links[j] == Marked(acs, 0, link)
    ensures links[j].blockStart.Some? && EndingAt(links, j) == Closing(acs, j)
  {
  }

  predicate EndsWith(blocks: seq<Run>, b: Run) {
    blocks != [] && blocks[|blocks| - 1] == b
  }

  lemma EndsStill(a: Run, blocks: seq<Run>, b: Run)
    ensures EndsWith(blocks, b) || (blocks == [] && a == b) ==> EndsWith([a] + blocks, b)
  {
  }

  lemma Shift<T>(a: seq<T>, b: T, c: seq<T>)
    ensures a + ([b] + c) == a + [b] + c
  {
  }

  lemma EndedBounds(job: Job, link: Link, lo: nat, j: nat)
    requires job.Sound() && Ended(job, link, lo, j)
    ensures link.blockStart.Some? && lo <= link.blockStart.value <= j
  {
  }

  lemma ForwardedAt(links: seq<Link>, j: nat)
    requires j < |links| && links[j].blockStart.Some? && links[j].blockStart.value < |links|
    ensures var s := links[j].blockStart.value;
      var first := links[s].(blockEnd := Some(j), multi := links[j].multi, headLen := links[j].headLen);
      Forwarded(links, j) == links[s := first]
  {
  }

  predicate AllCleared(acs: seq<Slot>) {
    forall i :: 0 <= i < |acs| ==> acs[i] == CLEARED
  }

  // The address stands alone in every entry.
  predicate FirstCosts(job: Job, acs: seq<Slot>, k: nat)
    requires k < |job.addrs|
  {
    forall i | 0 <= i < |acs| :: acs[i] == Slot(k, 0, NewCost(job, k, i), false, false)
  }

  // The fragment holds address k alone.
  predicate Single(job: Job, acs: seq<Slot>, k: nat)
    requires k < |job.addrs|
  {
    && |acs| == job.addrLen
    && forall i | 0 <= i < |acs| :: acs[i] == Slot(k, NewCost(job, k, i), NewCost(job, k, i), false, false)
  }

  // Taking an address adds its costs.
  predicate Charged(before: seq<Slot>, after: seq<Slot>) {
    && |after| == |before|
    && forall i | 0 <= i < |after| :: after[i] == before[i].(total := before[i].total + before[i].current)
  }

  // Some entry can take address k.
  ghost predicate Takes(job: Job, before: seq<Slot>, k: nat, run: nat, maxSize: int)
    requires job.Sound() && 0 < k < |job.addrs|
  {
    exists mid :: Joined(job, before, mid, k, run) && SomeFits(mid, maxSize, k)
  }

  // Address k joins the fragment and fits into it.
  ghost predicate Grown(job: Job, before: seq<Slot>, after: seq<Slot>, k: nat, run: nat, maxSize: int)
    requires job.Sound() && 0 < k < |job.addrs|
  {
    exists mid :: Joined(job, before, mid, k, run) && SomeFits(mid, maxSize, k) && Charged(mid, after)
  }

  lemma Grows(job: Job, before: seq<Slot>, mid: seq<Slot>, after: seq<Slot>, k: nat, run: nat, maxSize: int)
    requires job.Sound() && 0 < k < |job.addrs| && Joined(job, before, mid, k, run)
    ensures Takes(job, before, k, run, maxSize) <==> SomeFits(mid, maxSize, k)
    ensures SomeFits(mid, maxSize, k) && Charged(mid, after) ==> Grown(job, before, after, k, run, maxSize)
  {
    hide Joined, SomeFits, Charged;
    forall other | Joined(job, before, other, k, run)
      ensures other == mid
    {
      JoinedOnce(job, before, mid, other, k, run);
    }
  }

  // The fragment in front of address k costs as much as the cheapest entry to which k has been offered.
  ghost predicate Leaves(job: Job, before: seq<Slot>, k: nat, run: nat, cost: int)
    requires job.Sound() && 0 < k < |job.addrs|
  {
    forall mid | Joined(job, before, mid, k, run) :: mid != [] && cost == Least(mid)
  }

  lemma LeavesOnce(job: Job, before: seq<Slot>, mid: seq<Slot>, k: nat, run: nat)
    requires job.Sound() && 0 < k < |job.addrs| && Joined(job, before, mid, k, run) && mid != []
    ensures Leaves(job, before, k, run, Least(mid))
  {
    hide Joined, Least;
    forall other | Joined(job, before, other, k, run)
      ensures other == mid
    {
      JoinedOnce(job, before, mid, other, k, run);
    }
  }

  // What is found does not depend on the way.
  lemma JoinedOnce(job: Job, before: seq<Slot>, a: seq<Slot>, b: seq<Slot>, k: nat, run: nat)
    requires job.Sound() && 0 < k < |job.addrs| && Joined(job, before, a, k, run) && Joined(job, before, b, k, run)
    ensures a == b
  {
  }

  // Writing address k on its own costs something, whatever the head.
  predicate Costly(job: Job, k: nat)
    requires k < |job.addrs|
  {
    forall i | 0 <= i < job.addrLen :: NewCost(job, k, i) >= 0
  }

  lemma FirstPaid(job: Job, before: seq<Slot>, after: seq<Slot>, k: nat)
    requires k < |job.addrs| && |before| == job.addrLen && FirstCosts(job, before, k) && Charged(before, after)
    ensures Single(job, after, k) && (Costly(job, k) ==> Paid(after))
  {
  }

  // Only the shortest head matters for an address that is alone.
  lemma FirstFits(job: Job, before: seq<Slot>, after: seq<Slot>, k: nat, maxSize: int)
    requires k < |job.addrs| && AllCleared(before) && AdvancedAll(job, before, after, k, None, 1)
    ensures SomeFits(after, maxSize, k) <==> NewCost(job, k, 0) <= maxSize
    ensures FirstCosts(job, after, k)
  {
    assert after[0].total + after[0].current == NewCost(job, k, 0);
  }

  lemma IndexStep(job: Job, before: seq<Link>, after: seq<Link>, lo: nat, k: nat, idx: nat)
    requires job.Sound() && lo <= k < |before| && (lo < k ==> Indexed(before, lo, k, idx))
    requires after == before[k := before[k].(index := idx)]
    ensures Indexed(after, lo, k + 1, idx + 1)
    ensures forall n :: DoneUpTo(before, n) ==> DoneUpTo(after, n)
    ensures Unstarted(before, k) ==> Unstarted(after, k)
    ensures lo < k && EndedAll(job, before, lo, k - 1) ==> EndedAll(job, after, lo, k - 1)
  {
    hide Ended;
  }

  lemma AfterMark(job: Job, before: seq<Link>, after: seq<Link>, lo: nat, k: nat, idx: nat)
    requires job.Sound() && lo < k < |before| && MarkedLinks(before, after, lo, k - 1)
    requires Indexed(before, lo, k + 1, idx)
    requires EndedAll(job, before, lo, k - 1) && Ended(job, after[k - 1], lo, k - 1)
    ensures EndedAll(job, after, lo, k) && Indexed(after, lo, k + 1, idx)
    ensures Unstarted(before, k) ==> Unstarted(after, k)
    ensures forall n :: DoneUpTo(before, n) ==> DoneUpTo(after, n)
  {
    hide Ended;
  }

  lemma DoneStep(job: Job, before: seq<Link>, after: seq<Link>, lo: nat, k: nat, idx: nat)
    requires job.Sound() && lo <= k < |before| && after == before[k := before[k].(done := true)]
    requires DoneUpTo(before, k) && Unstarted(before, k) && Indexed(before, lo, k + 1, idx)
    requires EndedAll(job, before, lo, k)
    ensures DoneUpTo(after, k + 1) && Unstarted(after, k + 1) && Indexed(after, lo, k + 1, idx)
    ensures EndedAll(job, after, lo, k)
    ensures after[k].blockStart == None
  {
    hide Ended;
  }

  lemma CloseLast(job: Job, before: seq<Link>, after: seq<Link>, acs: seq<Slot>, lo: nat, k: nat)
    requires job.Sound() && lo <= k < |before| && 0 < k && |after| == |before| && acs != []
    requires after == before[k - 1 := Marked(acs, 0, before[k - 1])]
    requires EndedAll(job, before, lo, k) && DoneUpTo(before, k) && Unstarted(before, k)
    requires lo < k ==> Ended(job, after[k - 1], lo, k - 1)
    ensures EndedAll(job, after, lo, k) && DoneUpTo(after, k) && Unstarted(after, k)
  {
    hide Ended;
  }

  lemma SameKeeps(before: seq<Link>, after: seq<Link>, k: nat)
    requires SameMarks(before, after)
    ensures DoneUpTo(before, k) ==> DoneUpTo(after, k)
    ensures Unstarted(before, k) ==> Unstarted(after, k)
  {
  }

  lemma EndLast(job: Job, before: seq<Link>, after: seq<Link>, lo: nat, k: nat)
    requires job.Sound() && lo < k <= |before| && |after| == |before| && after == before[k - 1 := after[k - 1]]
    requires EndedAll(job, before, lo, k - 1) && Ended(job, after[k - 1], lo, k - 1)
    ensures EndedAll(job, after, lo, k)
  {
    hide Ended;
  }

  lemma SharedAt(a: seq<byte>, b: seq<byte>, k: nat, h: nat)
    requires k < h <= |a| == |b| && a[..h] == b[..h]
    ensures a[k] == b[k]
  {
    assert a[..h][k] == b[..h][k];
  }

  lemma HeadFound(a: seq<byte>, b: seq<byte>, h: nat)
    requires h <= |a| == |b| && a[..h] == b[..h] && (h < |a| ==> a[h] != b[h])
    ensures h == CommonHead(a, b)
  {
    var c := CommonHead(a, b);
    if c < h {
      SharedAt(a, b, c, h);
    } else if h < c {
      SharedAt(a, b, h, c);
    }
  }

  lemma NoCost(job: Job, links: seq<Link>, lo: nat)
    requires lo <= |links| == |job.addrs|
    ensures CostTo(job, links, lo, lo) == 0 && CostOf(job, []) == 0 && TrueTo(job, links, lo, lo) && Flagged(job, [])
  {
  }

  // The block that ends with address j, on its way from the marks to the list of blocks.
  lemma BlockCost(job: Job, before: seq<Link>, links: seq<Link>, lo: nat, j: nat, rest: seq<Run>)
    requires lo <= j < |links| == |before| == |job.addrs| && links[j] == before[j]
    requires links[j].blockStart.Some? && links[j].blockStart.value <= j
    ensures CostTo(job, before, lo, links[j].blockStart.value) + CostOf(job, [EndingAt(links, j)] + rest)
         == CostTo(job, before, lo, j + 1) + CostOf(job, rest)
    ensures TrueTo(job, before, lo, j + 1) && Flagged(job, rest) ==>
      TrueTo(job, before, lo, links[j].blockStart.value) && Flagged(job, [EndingAt(links, j)] + rest)
  {
    hide Charge, Varied;
    CostJoin(job, EndingAt(links, j), rest);
  }

  lemma StartPending(job: Job, links: seq<Link>, k: nat, acs: seq<Slot>)
    requires k < |links| == |job.addrs| && |acs| == job.addrLen && FirstCosts(job, acs, k)
    ensures Offered(job, links, k, k, acs)
  {
    StartOffered(job, links, k, acs);
  }

  lemma JoinPending(job: Job, links: seq<Link>, links': seq<Link>, lo: nat, k: nat, before: seq<Slot>, after: seq<Slot>,
                    run: nat, maxSize: int)
    requires job.Sound() && lo < k < |links| == |links'| == |job.addrs| && run >= 1
    requires Priced(job, links, lo, k - 1, before) && links[k - 1].blockStart.None? && Cheap(before, maxSize)
    requires MarkedLinks(links, links', lo, k - 1)
    requires links'[k - 1] == Marked(before, CommonAt(job, k), links[k - 1])
    requires Joined(job, before, after, k, NextRun(job, k, run))
    ensures Offered(job, links', lo, k, after) && (Gentle(job) ==> Cheap(after, maxSize))
  {
    hide Charge, Mixed, Advanced, NextRun, CostTo, Marked, Joined, Offered, Cheap, Gentle;
    JoinPriced(job, links, links', lo, k, before, after, run);
    if Gentle(job) {
      forall i | 0 <= i < |before|
        ensures before[i].ptr < k
      {
        assert PricedSlot(job, links, lo, k - 1, before[i], i);
      }
      StaysCheap(job, before, after, k, NextRun(job, k, run), maxSize);
    }
  }

  lemma TakeCheap(mid: seq<Slot>, after: seq<Slot>, maxSize: int, k: nat)
    requires SomeFits(mid, maxSize, k) && Charged(mid, after)
    ensures Cheap(after, maxSize)
  {
    var i :| 0 <= i < |mid| && Fits(mid[i], maxSize, k);
    assert after[i].total <= maxSize;
  }

  class Composer {
    const job: Job
    const maxSize: int
    const acs: array<Slot>
    const links: array<Link>
    var current: seq<nat>
    var sent: seq<Fragment>
    // the loop variables
    var ptr: nat
    var first: bool
    var idx: nat
    var nonMandatory: nat
    var firstProcessed: nat
    var lastProcessed: Option<nat>
    var samePrefix: nat

    constructor (job: Job, maxSize: int)
      requires job.Sound()
      ensures this.job == job && this.maxSize == maxSize && Inv(0, 0) && sent == [] && ptr == 0
      ensures fresh(acs) && fresh(links)
    {
      this.job, this.maxSize := job, maxSize;
      acs := new Slot[job.addrLen](_ => CLEARED);
      links := new Link[|job.addrs|](_ => NEW_LINK);
      current, sent, ptr, first, idx, nonMandatory := [], [], 0, true, 0, 0;
      firstProcessed, lastProcessed, samePrefix := 0, None, 0;
    }

    ghost predicate Sized() {
      job.Sound() && acs.Length == job.addrLen && links.Length == |job.addrs|
    }

    // An address that starts a fragment fits into it.
    predicate FitsAlone(k: nat)
      requires k < |job.addrs|
    {
      NewCost(job, k, 0) <= maxSize
    }

    // `next` addresses are done, those from `lo` on wait in the current fragment.
    ghost predicate Inv(lo: nat, next: nat)
      reads this, acs, links
    {
      && Sized() && lo <= next <= |job.addrs|
      && DoneUpTo(links[..], next) && Unstarted(links[..], next) && nonMandatory == next
      && lastProcessed == (if next == 0 then None else Some(next - 1))
      && Sent(job, sent, lo) && Modest(job, sent, maxSize)
      && (first ==> lo == next && ptr <= next && current == [])
      && (!first ==> lo < next == ptr && firstProcessed == lo && Collecting(lo, next))
    }

    // The session while a fragment is being filled.
    ghost predicate Collecting(lo: nat, next: nat)
      requires Sized() && lo < next <= |job.addrs|
      reads this, acs, links
    {
      && current == Positions(lo, next) && samePrefix >= 1 && Indexed(links[..], lo, next, idx)
      && Open(job, acs[..], lo, next - 1) && EndedAll(job, links[..], lo, next - 1)
      && links[next - 1].blockStart == None
      && Priced(job, links[..], lo, next - 1, acs[..]) && Cheap(acs[..], maxSize)
    }

    // Address `next` is the last one of the current fragment.
    ghost predicate Enlisted(lo: nat, next: nat)
      requires Sized() && lo <= next < |job.addrs|
      reads this, acs, links
    {
      && current == Positions(lo, next + 1) && samePrefix >= 1 && Indexed(links[..], lo, next + 1, idx)
      && (lo < next ==> Open(job, acs[..], lo, next - 1) && EndedAll(job, links[..], lo, next - 1)
                        && links[next - 1].blockStart == None
                        && Priced(job, links[..], lo, next - 1, acs[..]) && Cheap(acs[..], maxSize))
      && (lo == next ==> samePrefix == 1 && AllCleared(acs[..]))
    }

    // Address `next` has been added to the fragment, but may not fit.
    ghost predicate Pending(lo: nat, next: nat)
      requires Sized() && lo <= next < |job.addrs|
      reads this, acs, links
    {
      && current == Positions(lo, next + 1) && samePrefix >= 1 && Indexed(links[..], lo, next + 1, idx)
      && Open(job, acs[..], lo, next) && EndedAll(job, links[..], lo, next)
      && (lo < next ==> OpenBefore(job, acs[..], lo, next))
      && Offered(job, links[..], lo, next, acs[..]) && (lo < next && Gentle(job) ==> Cheap(acs[..], maxSize))
    }

    // _close_addrblock
    method Close(last: nat, common: nat)
      requires Sized() && last < links.Length && common < job.addrLen
      modifies acs, links
      ensures acs[..] == Leveled(old(acs[..]), common)
      ensures links[..] == old(links[..])[last := Marked(old(acs[..]), common, old(links[last]))]
    {
      ghost var before := acs[..];
      var best, size, i := common, acs[common].total, common + 1;
      while i < job.addrLen
        invariant common < i <= job.addrLen && common <= best < i && size == acs[best].total
        invariant forall j :: common <= j < i ==> size <= acs[j].total
        invariant forall j :: common <= j < best ==> size < acs[j].total
      {
        if acs[i].total < size {
          size, best := acs[i].total, i;
        }
        i := i + 1;
      }
      BestFound(before, common, best);
      if !acs[best].closed || links[last].blockStart.None? {
        links[last] := links[last].(blockStart := Some(acs[best].ptr), multi := acs[best].multi, headLen := best);
      }
      ghost var marked := links[..];
      i := common + 1;
      while i < job.addrLen
        invariant common < i <= job.addrLen && links[..] == marked
        invariant forall j :: common < j < i ==> acs[j] == before[j].(total := size)
        invariant forall j :: 0 <= j < acs.Length && !(common < j < i) ==> acs[j] == before[j]
      {
        acs[i] := acs[i].(total := size);
        i := i + 1;
      }
    }

    // The length of the head two addresses share.
    method SharedHead(a: seq<byte>, b: seq<byte>) returns (h: nat)
      requires |a| == |b|
      ensures h == CommonHead(a, b)
    {
      h := 0;
      while h < |a|
        invariant h <= |a| && a[..h] == b[..h]
      {
        if a[h] != b[h] {
          break;
        }
        h := h + 1;
      }
      HeadFound(a, b, h);
    }

    // The loop of _compress_address over the head lengths.
    method Advance(k: nat, common: Option<nat>, run: nat, ghost lo: nat)
      requires Sized() && k < links.Length && acs.Length > 0
      requires Indexed(links[..], lo, k + 1, idx)
      requires common.Some? ==> forall i :: 0 <= i < acs.Length ==> lo <= acs[i].ptr <= k
      modifies acs
      ensures AdvancedAll(job, old(acs[..]), acs[..], k, common, run)
    {
      ghost var before := acs[..];
      var top := job.addrLen - 1;
      var i := 0;
      while i < job.addrLen
        invariant 0 <= i <= job.addrLen
        invariant forall j :: 0 <= j < i ==> acs[j] == Advanced(job, before[j], before[top].total, k, j, common, run)
        invariant forall j :: i <= j < acs.Length ==> acs[j] == before[j]
        invariant acs[top].total == before[top].total
      {
        var closed := common.None? || common.value < i;
        // opening a block with this address
        var newCost := 2 + (if i > 0 then 1 else 0) + job.addrLen;
        if job.addrs[k].plen != job.addrLen * 8 {
          newCost := newCost + 1;
        }
        var continueCost := 0;
        if !closed {
          // staying in the open block
          continueCost := job.addrLen - i;
          if acs[i].multi {
            continueCost := continueCost + 1;
          } else if run == 1 {
            continueCost := continueCost + (links[acs[i].ptr].index - links[k].index + 1);
            acs[i] := acs[i].(multi := true);
          }
        }
        newCost := newCost + 2 + job.begin(k);
        continueCost := continueCost + job.more(acs[i].ptr, k);
        if closed || acs[i].total + continueCost > acs[top].total + newCost {
          acs[i] := acs[i].(ptr := k, multi := false, total := acs[top].total, current := newCost);
          closed := true;
        } else {
          acs[i] := acs[i].(current := continueCost);
        }
        if common.Some? {
          acs[i] := acs[i].(closed := closed);
        }
        i := i + 1;
      }
    }

    // _compress_address, for the last address of the current fragment
    method Compress(run: nat, ghost lo: nat) returns (next: nat)
      requires Sized() && lo < lo + |current| <= |job.addrs| && current == Positions(lo, lo + |current|) && run >= 1
      requires Indexed(links[..], lo, lo + |current|, idx)
      requires |current| > 1 ==>
        Open(job, acs[..], lo, lo + |current| - 2) && links[lo + |current| - 2].blockStart == None
      modifies acs, links
      ensures next >= 1
      ensures |current| == 1 ==>
        next == run && AdvancedAll(job, old(acs[..]), acs[..], lo, None, run) && links[..] == old(links[..])
      ensures |current| > 1 ==>
        var k := lo + |current| - 1;
        && Open(job, acs[..], lo, k) && OpenBefore(job, acs[..], lo, k)
        && MarkedLinks(old(links[..]), links[..], lo, k - 1) && Ended(job, links[k - 1], lo, k - 1)
        && next == NextRun(job, k, run) && Joined(job, old(acs[..]), acs[..], k, next)
        && links[k - 1] == Marked(old(acs[..]), CommonAt(job, k), old(links[k - 1]))
        && (Paid(old(acs[..])) && Dear(job, k, maxSize) ==> !SomeFits(acs[..], maxSize, k))
    {
      hide Alike, Open, OpenBefore, Indexed, Leveled, Marked, AdvancedAll, Ended, CommonHead;
      var k := current[|current| - 1];
      next := run;
      if |current| == 1 {
        Advance(k, None, next, lo);
      } else {
        var last := current[|current| - 2];
        ghost var before := acs[..];
        next := if job.addrs[last].plen == job.addrs[k].plen then next + 1 else 1;
        var common := SharedHead(job.addrs[last].bytes, job.addrs[k].bytes);
        DifferentHeads(job, k);
        MarkedEnds(job, acs[..], common, links[last], lo, last);
        LeveledOpen(job, acs[..], lo, last, common);
        ghost var was := links[..];
        Close(last, common);
        LinksMarked(job, was, links[..], before, common, lo, last, k + 1, idx);
        OpenBounds(job, acs[..], lo, last);
        ghost var level := acs[..];
        Advance(k, Some(common), next, lo);
        SessionContinues(job, level, acs[..], lo, k, common, run);
        if Paid(before) && Dear(job, k, maxSize) {
          LeveledPaid(before, common);
          OpenBounds(job, level, lo, last);
          DearCosts(job, level, acs[..], k, common, next, maxSize);
        }
      }
    }

    // The smallest session entry that fits, or -1.
    method BestHead(k: nat, ghost lo: nat) returns (head: int)
      requires Sized() && k < links.Length && Indexed(links[..], lo, k + 1, idx)
      requires forall i :: 0 <= i < acs.Length ==> lo <= acs[i].ptr <= k
      ensures -1 <= head < acs.Length
      ensures head == -1 <==> !SomeFits(acs[..], maxSize, k)
      ensures head >= 0 ==>
        && Fits(acs[head], maxSize, k)
        && forall i :: 0 <= i < acs.Length && Fits(acs[i], maxSize, k) ==>
             acs[head].total + acs[head].current <= acs[i].total + acs[i].current
    {
      head := -1;
      var bestSize := maxSize + 1;
      var i := 0;
      while i < job.addrLen
        invariant 0 <= i <= job.addrLen && -1 <= head < i
        invariant head == -1 ==> bestSize == maxSize + 1 && forall j :: 0 <= j < i ==> !Fits(acs[j], maxSize, k)
        invariant head >= 0 ==> Fits(acs[head], maxSize, k) && bestSize == acs[head].total + acs[head].current
        invariant forall j :: 0 <= j < i && Fits(acs[j], maxSize, k) ==> bestSize <= acs[j].total + acs[j].current
      {
        var size := acs[i].total + acs[i].current;
        var count := links[k].index - links[acs[i].ptr].index;
        if size < bestSize && count <= 254 {
          head, bestSize := i, size;
        }
        i := i + 1;
      }
    }

    // The forward pointers of _finalize_message_fragment.
    method Forward(start: nat, last: nat)
      requires Sized() && start <= last < links.Length && EndedAll(job, links[..], start, last + 1)
      modifies links
      ensures Tiles(job, Chain(links[..], start, last + 1), start, last + 1)
      ensures SameMarks(old(links[..]), links[..])
      ensures old(links[last]).blockStart.Some?
      ensures EndsWith(Chain(links[..], start, last + 1), EndingAt(old(links[..]), last))
      ensures CostOf(job, Chain(links[..], start, last + 1)) == CostTo(job, old(links[..]), start, last + 1)
      ensures TrueTo(job, old(links[..]), start, last + 1) ==> Flagged(job, Chain(links[..], start, last + 1))
    {
      hide Tiles, Chain, Ended, Forwarded, EndsWith, CostOf, CostTo, TrueTo, Flagged;
      ghost var before := links[..];
      EndedBounds(job, links[last], start, last);
      ghost var end := EndingAt(before, last);
      var addr := last;
      Empty(job, links[..], last + 1);
      NoCost(job, before, start);
      while true
        invariant start <= addr <= last && SameMarks(before, links[..])
        invariant CostTo(job, before, start, addr + 1) + CostOf(job, Chain(links[..], addr + 1, last + 1))
               == CostTo(job, before, start, last + 1)
        invariant TrueTo(job, before, start, last + 1) ==>
          TrueTo(job, before, start, addr + 1) && Flagged(job, Chain(links[..], addr + 1, last + 1))
        invariant forall j :: start <= j <= addr ==> links[j] == before[j]
        invariant Tiles(job, Chain(links[..], addr + 1, last + 1), addr + 1, last + 1)
        invariant addr == last || EndsWith(Chain(links[..], addr + 1, last + 1), end)
        invariant addr == last ==> Chain(links[..], addr + 1, last + 1) == []
        decreases addr
      {
        EndedBounds(job, links[addr], start, addr);
        ForwardStep(job, links[..], start, addr, last + 1);
        EndsStill(EndingAt(links[..], addr), Chain(links[..], addr + 1, last + 1), end);
        BlockCost(job, before, links[..], start, addr, Chain(links[..], addr + 1, last + 1));
        var s := links[addr].blockStart.value;
        ForwardedAt(links[..], addr);
        links[s] := links[s].(blockEnd := Some(addr), multi := links[addr].multi, headLen := links[addr].headLen);
        if s == start {
          break;
        }
        addr := s - 1;
      }
    }

    // The loop of _write_addresses over the blocks of a fragment.
    method Blocks(start: nat, last: nat) returns (blocks: seq<Run>)
      requires Sized() && start <= last < links.Length
      requires Tiles(job, Chain(links[..], start, last + 1), start, last + 1)
      ensures blocks == Chain(links[..], start, last + 1)
    {
      hide Good, Chain, Tiles;
      var addr := start;
      blocks := [];
      while true
        invariant start <= addr <= last
        invariant Tiles(job, Chain(links[..], addr, last + 1), addr, last + 1)
        invariant blocks + Chain(links[..], addr, last + 1) == Chain(links[..], start, last + 1)
        decreases last - addr
      {
        ChainHead(job, links[..], addr, last + 1);
        var end := links[addr].blockEnd.value;
        var b := Run(addr, end, links[addr].headLen, links[addr].multi);
        Shift(blocks, b, Chain(links[..], end + 1, last + 1));
        blocks := blocks + [b];
        if end == last {
          Empty(job, links[..], last + 1);
          break;
        }
        addr := end + 1;
      }
    }

    // _finalize_message_fragment
    method Finalize(ghost lo: nat, ghost hi: nat)
      requires Sized() && lo <= hi <= links.Length && current == Positions(lo, hi) && EndedAll(job, links[..], lo, hi)
      requires Sent(job, sent, lo) && firstProcessed == lo
      modifies links, this`sent
      ensures SameMarks(old(links[..]), links[..])
      ensures exists blocks ::
        && sent == old(sent) + [Fragment(lo, hi, blocks)]
        && (lo < hi ==> links[hi - 1].blockStart.Some? && EndsWith(blocks, EndingAt(old(links[..]), hi - 1)))
        && CostOf(job, blocks) == CostTo(job, old(links[..]), lo, hi)
        && (TrueTo(job, old(links[..]), lo, hi) ==> Flagged(job, blocks))
      ensures Sent(job, sent, hi)
    {
      hide Tiles, Chain, Ended, CostOf, CostTo, TrueTo, Flagged;
      NoCost(job, links[..], lo);
      if current == [] {
        Empty(job, links[..], hi);
        sent := sent + [Fragment(firstProcessed, firstProcessed, [])];
      } else {
        Forward(current[0], current[|current| - 1]);
        var blocks := Blocks(current[0], current[|current| - 1]);
        sent := sent + [Fragment(current[0], current[|current| - 1] + 1, blocks)];
      }
      assert sent[..|sent| - 1] == old(sent);
    }

    // The next address enters the current fragment.
    method Enlist(ghost lo: nat, ghost next: nat)
      requires Inv(lo, next) && ptr == next < |job.addrs|
      modifies this`current, this`idx, this`samePrefix, this`firstProcessed, acs, links
      ensures Sized() && Enlisted(lo, next) && DoneUpTo(links[..], next) && Unstarted(links[..], next)
      ensures firstProcessed == lo && (first ==> lo == next) && (!first ==> lo < next && acs[..] == old(acs[..]))
      ensures !first ==> samePrefix == old(samePrefix)
    {
      hide Sent, Alike, Open, Ended, Advanced, Priced, Cheap, Modest;
      var addr := ptr;
      if first {
        forall i | 0 <= i < acs.Length {
          acs[i] := CLEARED;
        }
        samePrefix := 1;
        firstProcessed := addr;
      }
      ghost var before := links[..];
      links[addr] := links[addr].(index := idx);
      IndexStep(job, before, links[..], lo, addr, idx);
      if !first {
        PricedFrame(job, before, links[..], lo, addr - 1, acs[..]);
      }
      idx := idx + 1;
      current := current + [addr];
    }

    // One address is added to the current fragment.
    method Add(ghost lo: nat, ghost next: nat) returns (best: int)
      requires Inv(lo, next) && ptr == next < |job.addrs|
      modifies this`current, this`idx, this`samePrefix, this`firstProcessed, acs, links
      ensures Sized() && Pending(lo, next) && DoneUpTo(links[..], next) && Unstarted(links[..], next)
      ensures firstProcessed == lo && (first ==> lo == next) && (!first ==> lo < next)
      ensures best == -1 <==> !SomeFits(acs[..], maxSize, next)
      ensures first ==> (SomeFits(acs[..], maxSize, next) <==> FitsAlone(next)) && FirstCosts(job, acs[..], next)
      ensures !first && Paid(old(acs[..])) && Dear(job, next, maxSize) ==> best == -1
      ensures first ==> samePrefix == 1
      ensures !first ==>
        samePrefix == NextRun(job, next, old(samePrefix)) && Joined(job, old(acs[..]), acs[..], next, samePrefix)
    {
      hide Paid, Dear, FirstCosts, Joined, NextRun, Marked, CommonAt, AdvancedAll, DoneUpTo, Unstarted;
      hide Sent, Alike, Open, OpenBefore, Ended, EndedAll, SomeFits, NewCost, Priced, Offered, Cheap, Gentle, Modest;
      Enlist(lo, next);
      ghost var before, run := links[..], samePrefix;
      ghost var cleared := acs[..];
      samePrefix := Compress(samePrefix, lo);
      if lo == next {
        SessionStarts(job, cleared, acs[..], next);
        FirstFits(job, cleared, acs[..], next, maxSize);
        NoneEnded(job, links[..], lo);
        StartPending(job, links[..], next, acs[..]);
      } else {
        JoinPending(job, before, links[..], lo, next, cleared, acs[..], run, maxSize);
        AfterMark(job, before, links[..], lo, next, idx);
      }
      OpenBounds(job, acs[..], lo, next);
      best := BestHead(ptr, lo);
    }

    // The address fits: its costs become part of the totals.
    method Take(ghost lo: nat, ghost next: nat)
      requires Sized() && lo <= next == ptr < |job.addrs| && Pending(lo, next) && !first
      requires DoneUpTo(links[..], next) && Unstarted(links[..], next)
      requires firstProcessed == lo && nonMandatory == next && Sent(job, sent, lo)
      requires SomeFits(acs[..], maxSize, next) && Modest(job, sent, maxSize)
      modifies this`ptr, this`nonMandatory, this`lastProcessed, acs, links
      ensures Inv(lo, next + 1) && ptr == old(ptr) + 1 && Charged(old(acs[..]), acs[..])
    {
      hide Sent, Alike, Open, Ended, Indexed, EndedAll, Priced, Offered, Cheap, SomeFits, Gentle, Modest;
      var addr := ptr;
      ghost var before, was := acs[..], links[..];
      forall i | 0 <= i < acs.Length {
        acs[i] := acs[i].(total := acs[i].total + acs[i].current);
      }
      OpenSame(job, before, acs[..], lo, next);
      TakePriced(job, was, lo, next, before, acs[..]);
      TakeCheap(before, acs[..], maxSize, next);
      lastProcessed := Some(addr);
      if !links[addr].done {
        assert links[..] == was;
        links[addr] := links[addr].(done := true);
        nonMandatory := nonMandatory + 1;
        DoneStep(job, was, links[..], lo, addr, idx);
        PricedFrame(job, was, links[..], lo, next, acs[..]);
      }
      ptr := ptr + 1;
    }

    // The address does not fit: the fragment is sent without it and a new one begins.
    method Overflow(ghost lo: nat, ghost next: nat)
      requires Sized() && lo <= next < |job.addrs| && Pending(lo, next) && 0 < next
      requires DoneUpTo(links[..], next) && Unstarted(links[..], next)
      requires firstProcessed == lo && nonMandatory == next && lastProcessed == Some(next - 1) && Sent(job, sent, lo)
      requires Modest(job, sent, maxSize)
      modifies this`ptr, this`first, this`current, this`sent, acs, links
      ensures Inv(next, next) && ptr == lo && first
      ensures exists blocks :: sent == old(sent) + [Fragment(lo, next, blocks)]
      ensures lo < next ==> acs.Length > 0 && LastCost(job, sent) == Least(old(acs[..]))
    {
      hide Sent, Alike, Open, OpenBefore, Ended, Indexed, Marked, Leveled, Offered, Cheap, Gentle, Modest, CostTo;
      hide CostOf, TrueTo, Flagged;
      var last := lastProcessed.value;
      current := current[..|current| - 1];
      assert current == Positions(lo, next);
      ghost var before := links[..];
      if lo < next {
        MarkedAgain(job, acs[..], links[last], lo, next);
      }
      ghost var session, shipped := acs[..], sent;
      Close(last, 0);
      CloseLast(job, before, links[..], session, lo, next);
      if lo < next {
        EndedBounds(job, before[last], lo, last);
        MarkOffered(job, before, lo, next, session);
        BestCheap(session, maxSize);
      }
      ghost var was := links[..];
      Finalize(lo, next);
      SameKeeps(was, links[..], next);
      ModestMore(job, shipped, sent[|sent| - 1], maxSize);
      current := [];
      ptr := firstProcessed;
      first := true;
    }

    // One turn of the loop of rfc5444_writer_create_message: an address that is done is skipped;
    // otherwise it is taken, or the fragment in front of it is sent. A fragment that is still
    // empty means that the address does not even fit alone: the turn has made no progress and
    // every further one will not either, unless it is the first address, which is an error.
    method Step(ghost lo: nat, ghost next: nat) returns (tooSmall: bool, ghost lo': nat, ghost next': nat)
      requires Inv(lo, next) && ptr < |job.addrs|
      modifies this, acs, links
      ensures tooSmall <==> next == 0 && !FitsAlone(0)
      ensures !tooSmall ==> Inv(lo', next') && next <= next'
      ensures old(ptr) < next ==> lo' == lo && next' == next && first && ptr == old(ptr) + 1 && sent == old(sent)
      ensures old(first) && old(ptr) == next ==> (next' == next + 1 <==> FitsAlone(next))
      ensures old(ptr) == next < next' ==> lo' == lo && next' == next + 1 && !first && sent == old(sent)
      ensures !tooSmall && old(ptr) == next == next' ==>
        lo' == next && first && ptr == lo && exists blocks :: sent == old(sent) + [Fragment(lo, next, blocks)]
      ensures old(first) && 0 < next < |job.addrs| && !FitsAlone(next) ==> first && next' == next
      ensures tooSmall ==> sent == old(sent)
      ensures old(first) && old(ptr) == next < next' && Costly(job, next) ==> Paid(acs[..])
      ensures !old(first) && Paid(old(acs[..])) && Dear(job, next, maxSize) ==> next' == next
      ensures old(first) && old(ptr) == next < next' ==> Single(job, acs[..], next) && samePrefix == 1
      ensures !old(first) ==>
        var run := NextRun(job, next, old(samePrefix));
        && (next < next' <==> Takes(job, old(acs[..]), next, run, maxSize))
        && (next < next' ==> Grown(job, old(acs[..]), acs[..], next, run, maxSize) && samePrefix == run)
        && (next == next' ==> Leaves(job, old(acs[..]), next, run, LastCost(job, sent)))
    {
      hide Paid, Dear, FirstCosts, Costly, Charged, Single, Takes, Grown, Joined, NextRun, Leaves, LastCost;
      hide Modest, Priced, Offered, Cheap, Gentle;
      hide FitsAlone, Sent, Alike, Open, OpenBefore, Ended, Indexed, EndedAll, SomeFits, Unstarted;
      tooSmall, lo', next' := false, lo, next;
      if links[ptr].done {
        ptr := ptr + 1;
        return;
      }
      ghost var started, session := first, acs[..];
      var best := Add(lo, next);
      ghost var before := acs[..];
      first := false;
      if best == -1 {
        if nonMandatory == 0 {
          tooSmall := true;
          return;
        }
        Overflow(lo, next);
        lo' := next;
      } else {
        Take(lo, next);
        next' := next + 1;
        if started {
          FirstPaid(job, before, acs[..], next);
        }
      }
      if !started {
        Grows(job, session, before, acs[..], next, NextRun(job, next, old(samePrefix)), maxSize);
        if next' == next {
          LeavesOnce(job, session, before, next, NextRun(job, next, old(samePrefix)));
        }
      }
    }

    // A fragment starts with an address that does not even fit alone.
    ghost predicate Stuck(next: nat)
      reads this, acs, links
    {
      Inv(next, next) && first && 0 < next < |job.addrs| && !FitsAlone(next)
    }

    // However often the loop turns, it stays at this address, sending one empty fragment after the other.
    method Spin(n: nat, ghost next: nat)
      requires Stuck(next)
      modifies this, acs, links
      ensures Stuck(next) && old(sent) <= sent
      ensures old(ptr) == next ==> ptr == next && |sent| == |old(sent)| + n
      ensures forall i | |old(sent)| <= i < |sent| :: sent[i].first == sent[i].end == next
    {
      ghost var lo, now := next, next;
      for i := 0 to n
        invariant Stuck(next) && old(sent) <= sent && lo == now == next
        invariant old(ptr) == next ==> ptr == next && |sent| == |old(sent)| + i
        invariant forall j | |old(sent)| <= j < |sent| :: sent[j].first == sent[j].end == next
      {
        hide FitsAlone, Sent, Sized, Collecting, DoneUpTo, Unstarted, Single, Takes, Grown, NextRun;
        var tooSmall;
        tooSmall, lo, now := Step(lo, now);
      }
    }

    // A message without addresses.
    method NoAddresses()
      requires Inv(0, 0) && |job.addrs| == 0 && sent == []
      modifies this`sent
      ensures |sent| == 1 && Sent(job, sent, 0) && ExpandAll(job, sent) == job.addrs && Modest(job, sent, maxSize)
    {
      sent := sent + [Fragment(0, 0, [])];
      assert sent[..0] == [];
      SentExpand(job, sent, 0);
    }

    // Every message is sent, refused or trapped, and it is trapped if and only if a fragment starts
    // with an address that does not fit alone.
    method Follow() returns (r: Outcome)
      requires Inv(0, 0) && ptr == 0 && sent == []
      modifies this, acs, links
      ensures r == MtuTooSmall <==> |job.addrs| > 0 && !FitsAlone(0)
      ensures r == MtuTooSmall <==> |job.addrs| > 0 && AloneBytes(job, 0) > maxSize
      ensures r == Done ==> Proper(job, sent) && Sent(job, sent, |job.addrs|) && ExpandAll(job, sent) == job.addrs
      ensures Modest(job, sent, maxSize)
      ensures r == Trapped ==> Stuck(nonMandatory) && NonEmpty(sent)
      ensures r == Trapped ==> ExpandAll(job, sent) == job.addrs[..nonMandatory]
    {
      hide EndsWith, Closing, Single, Takes, Grown, NextRun, Sent, ExpandAll, AloneBytes, NewCost, Leaves, LastCost;
      hide Modest, Least, Best;
      if |job.addrs| == 0 {
        NoAddresses();
        return Done;
      }
      NewCostBytes(job, 0, 0);
      ghost var lo, next := 0, 0;
      while ptr < |job.addrs|
        invariant Inv(lo, next) && NonEmpty(sent) && (next == 0 ==> sent == [])
        invariant (first && |job.addrs| > 0 ==> next < |job.addrs|) && (next > 0 ==> FitsAlone(0))
        invariant ptr <= |job.addrs|
        decreases |job.addrs| - next, !first, |job.addrs| - ptr
      {
        hide FitsAlone, Sized, Collecting, DoneUpTo, Unstarted;
        if first && 0 < nonMandatory && !FitsAlone(nonMandatory) {
          SentExpand(job, sent, next);
          return Trapped;
        }
        var tooSmall;
        tooSmall, lo, next := Step(lo, next);
        if tooSmall {
          return MtuTooSmall;
        }
      }
      if lastProcessed.Some? {
        Finish(lo, next);
      }
      SentExpand(job, sent, |job.addrs|);
      assert job.addrs[..|job.addrs|] == job.addrs;
      r := Done;
    }

    // The simplest case: the first address fits, the second one is too large for every block.
    method SecondTooDear(n: nat)
      requires Inv(0, 0) && first && ptr == 0 && sent == [] && |job.addrs| > 1
      requires FitsAlone(0) && Costly(job, 0) && Dear(job, 1, maxSize)
      modifies this, acs, links
      ensures Stuck(1) && ptr == 1 && |sent| == n + 1 && sent[0].first == 0 && sent[0].end == 1
      ensures forall i | 0 < i <= n :: sent[i].first == sent[i].end == 1
    {
      hide Sent, Collecting, DoneUpTo, Unstarted, Costly, Paid, NewCost;
      assert !FitsAlone(1);
      var tooSmall;
      ghost var lo, next;
      tooSmall, lo, next := Step(0, 0);
      tooSmall, lo, next := Step(0, 1);
      // the turn that skips the first address again
      tooSmall, lo, next := Step(1, 1);
      Spin(n, 1);
    }

    // The number of addresses is checked for an entry that fits, but not for the one that is chosen in the
    // end: here it is the one with the short head, with all 256 addresses in one block.
    method LongBlock()
      requires Inv(0, 0) && first && ptr == 0 && sent == [] && Alternating(job) && maxSize >= 523
      modifies this, acs, links
      ensures exists blocks :: sent == [Fragment(0, 256, blocks)] && EndsWith(blocks, Run(0, 255, 0, false))
    {
      hide Sent, Collecting, DoneUpTo, Unstarted, Single, Long, Takes, Grown, Alternating, EndsWith;
      AlternatingFits(job);
      var tooSmall;
      ghost var lo, next;
      tooSmall, lo, next := Step(0, 0);
      LongStart(job, acs[..]);
      for k := 1 to 256
        invariant Inv(0, k) && !first && samePrefix == k && Long(acs[..], k - 1) && sent == []
      {
        LongRun(job, k);
        ghost var before := acs[..];
        LongTakes(job, before, k, maxSize);
        tooSmall, lo, next := Step(0, k);
        LongGrows(job, before, acs[..], k, maxSize);
      }
      LongEnds(acs[..]);
      Finish(0, 256);
    }

    // The addresses of a message whose later addresses all fit alone: the loop ends, and every
    // address is in exactly one fragment, none of them empty.
    method CreateMessage() returns (r: Outcome)
      requires Inv(0, 0) && ptr == 0 && sent == []
      requires forall k :: 0 < k < |job.addrs| ==> FitsAlone(k)
      modifies this, acs, links
      ensures r == MtuTooSmall <==> |job.addrs| > 0 && !FitsAlone(0)
      ensures r == MtuTooSmall <==> |job.addrs| > 0 && AloneBytes(job, 0) > maxSize
      ensures (r == MtuTooSmall ==> sent == []) && r != Trapped
      ensures r == Done ==> Proper(job, sent) && Sent(job, sent, |job.addrs|) && ExpandAll(job, sent) == job.addrs
      ensures Modest(job, sent, maxSize)
    {
      hide EndsWith, Closing, Single, Takes, Grown, NextRun, Sent, ExpandAll, AloneBytes, NewCost, Leaves, LastCost;
      hide Modest, Least, Best;
      if |job.addrs| == 0 {
        NoAddresses();
        return Done;
      }
      NewCostBytes(job, 0, 0);
      ghost var lo, next := 0, 0;
      while ptr < |job.addrs|
        invariant Inv(lo, next) && NonEmpty(sent) && (next == 0 ==> sent == [])
        invariant (first && |job.addrs| > 0 ==> next < |job.addrs|) && (next > 0 ==> FitsAlone(0))
        invariant ptr <= |job.addrs|
        decreases |job.addrs| - next, !first, |job.addrs| - ptr
      {
        var tooSmall;
        hide FitsAlone, Sized, Collecting, DoneUpTo, Unstarted;
        tooSmall, lo, next := Step(lo, next);
        if tooSmall {
          return MtuTooSmall;
        }
      }
      if lastProcessed.Some? {
        Finish(lo, next);
      }
      SentExpand(job, sent, |job.addrs|);
      assert job.addrs[..|job.addrs|] == job.addrs;
      r := Done;
    }

    // The last fragment.
    method Finish(ghost lo: nat, ghost next: nat)
      requires Inv(lo, next) && !first && NonEmpty(sent)
      modifies this`sent, acs, links
      ensures Sent(job, sent, next) && NonEmpty(sent) && Modest(job, sent, maxSize)
      ensures acs.Length > 0 && LastCost(job, sent) == Least(old(acs[..])) <= maxSize
      ensures exists blocks ::
        sent == old(sent) + [Fragment(lo, next, blocks)] && EndsWith(blocks, Closing(old(acs[..]), next - 1))
    {
      hide EndsWith, Sent, Alike, Open, OpenBefore, Ended, Indexed, Marked, Leveled, Priced, Cheap, Gentle, Modest;
      hide CostTo, CostOf, TrueTo, Flagged;
      var last := lastProcessed.value;
      ghost var before, session := links[..], acs[..];
      MarkedEnds(job, acs[..], 0, links[last], lo, last);
      Close(last, 0);
      assert links[..] == before[last := Marked(session, 0, before[last])];
      EndLast(job, before, links[..], lo, next);
      ClosedRun(before[last], session, links[..], next - 1);
      MarkPriced(job, before, lo, last, session, 0);
      BestCheap(session, maxSize);
      ghost var shipped := sent;
      Finalize(lo, next);
      ModestMore(job, shipped, sent[|sent| - 1], maxSize);
    }
  }

  // Two IPv4 addresses in messages of 100 bytes, the second one with a TLV of 1000.
  lemma DearJob() returns (job: Job, maxSize: int)
    ensures job.Sound() && |job.addrs| == 2 && NewCost(job, 0, 0) <= maxSize
    ensures Costly(job, 0) && Dear(job, 1, maxSize)
  {
    var addrs := [Address([10, 0, 0, 1], 32), Address([10, 0, 0, 2], 32)];
    job := Job(addrs, 4, k => if k == 0 then 0 else 1000, (s, k) => if k == 0 then 0 else 1000);
    maxSize := 100;
    assert addrs[0].bytes[3] != addrs[1].bytes[3];
  }

  // 256 addresses of two bytes without TLVs, each one with another first byte than the one before.
  ghost predicate Alternating(job: Job) {
    && job.Sound() && job.addrLen == 2 && |job.addrs| == 256
    && (forall k | 0 <= k < 256 :: job.addrs[k] == Address([k % 2, k], 16) && job.begin(k) == 0)
    && forall s: nat, k: nat :: job.more(s, k) == 0
  }

  lemma AlternatingJob() returns (job: Job)
    ensures Alternating(job)
  {
    var addrs := seq(256, k requires 0 <= k < 256 => Address([k % 2, k], 16));
    job := Job(addrs, 2, k => 0, (s, k) => 0);
    forall k | 0 < k < 256
      ensures addrs[k - 1].bytes != addrs[k].bytes
    {
      assert addrs[k - 1].bytes[1] != addrs[k].bytes[1];
    }
  }

  // The session while they are added: the block of all addresses is the cheapest one.
  predicate Long(acs: seq<Slot>, k: nat) {
    |acs| == 2 && acs[0] == Slot(0, 6 + 2 * k, acs[0].current, false, false) && acs[0].total <= acs[1].total
  }

  lemma AlternatingFits(job: Job)
    requires Alternating(job)
    ensures job.Sound() && |job.addrs| == 256 && NewCost(job, 0, 0) == 6
  {
  }

  lemma LongStart(job: Job, acs: seq<Slot>)
    requires Alternating(job) && Single(job, acs, 0)
    ensures Long(acs, 0)
  {
  }

  lemma LongRun(job: Job, k: nat)
    requires Alternating(job) && 0 < k < 256
    ensures NextRun(job, k, k) == k + 1
  {
  }

  // The session when address k is added.
  function LongMiddle(k: nat): seq<Slot> {
    [Slot(0, 4 + 2 * k, 2, false, false), Slot(k, 4 + 2 * k, 7, false, true)]
  }

  lemma LongJoined(job: Job, before: seq<Slot>, k: nat)
    requires Alternating(job) && 0 < k < 256 && Long(before, k - 1)
    ensures Joined(job, before, LongMiddle(k), k, k + 1)
  {
    assert CommonAt(job, k) == 0 by {
      assert job.addrs[k - 1].bytes[0] != job.addrs[k].bytes[0];
    }
    assert Best(before, 0) == 0;
  }

  lemma LongTakes(job: Job, before: seq<Slot>, k: nat, maxSize: int)
    requires Alternating(job) && 0 < k < 256 && Long(before, k - 1) && maxSize >= 523
    ensures Takes(job, before, k, k + 1, maxSize)
  {
    LongJoined(job, before, k);
    assert Fits(LongMiddle(k)[1], maxSize, k);
  }

  lemma LongGrows(job: Job, before: seq<Slot>, after: seq<Slot>, k: nat, maxSize: int)
    requires Alternating(job) && 0 < k < 256 && Long(before, k - 1) && Grown(job, before, after, k, k + 1, maxSize)
    ensures Long(after, k)
  {
    var mid :| Joined(job, before, mid, k, k + 1) && SomeFits(mid, maxSize, k) && Charged(mid, after);
    LongJoined(job, before, k);
    JoinedOnce(job, before, mid, LongMiddle(k), k, k + 1);
  }

  lemma LongEnds(acs: seq<Slot>)
    requires Long(acs, 255)
    ensures acs != [] && Closing(acs, 255) == Run(0, 255, 0, false)
  {
  }
}
