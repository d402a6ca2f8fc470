// Address compression: choosing where the address blocks of a message fragment begin and end.
module AddrCompress {
  import opened Basics
  import opened Rfc5444
  import opened AddrBlock

  // The addresses of a message, by position, and what their TLVs cost: `begin(k)` in a new
  // address block, `more(s, k)` when address k continues the block that starts at address s.
  datatype Job = Job(addrs: seq<Address>, addrLen: nat, begin: nat -> int, more: (nat, nat) -> int) {
    predicate Sound() {
      && 1 <= addrLen <= MAX_ADDRLEN && Wide(addrs, addrLen)
      && (forall k :: 0 <= k < |addrs| ==> addrs[k].plen <= 8 * addrLen)
      && forall k :: 0 < k < |addrs| ==> addrs[k - 1].bytes != addrs[k].bytes
    }
  }

  // One entry of the compression session: the best way to write all addresses so far
  // with an open block of this head length.
  datatype Slot = Slot(ptr: nat, total: int, current: int, multi: bool, closed: bool)

  const CLEARED := Slot(0, 0, 0, false, false)

  // The fields of an address object that compression fills in.
  datatype Link = Link(
    index: nat, done: bool, blockStart: Option<nat>, blockEnd: Option<nat>, headLen: nat, multi: bool)

  const NEW_LINK := Link(0, false, None, None, 0, false)

  // ---- what a block promises ----

  // Addresses s to e share `head` bytes and, unless flagged, one prefix length.
  predicate Alike(job: Job, s: nat, e: nat, head: nat, multi: bool)
    requires job.Sound()
  {
    && s <= e < |job.addrs| && head < job.addrLen
    && (forall j :: s <= j <= e ==> job.addrs[j].bytes[..head] == job.addrs[s].bytes[..head])
    && (!multi ==> forall j :: s <= j <= e ==> job.addrs[j].plen == job.addrs[s].plen)
  }

  // A block can take the next address if it agrees on the head, and on the prefix length unless flagged.
  lemma AlikeLonger(job: Job, s: nat, k: nat, head: nat, multi: bool, multi': bool)
    requires job.Sound() && 0 < k < |job.addrs| && Alike(job, s, k - 1, head, multi)
    requires job.addrs[k].bytes[..head] == job.addrs[k - 1].bytes[..head]
    requires multi' || (!multi && job.addrs[k].plen == job.addrs[k - 1].plen)
    ensures Alike(job, s, k, head, multi')
  {
  }

  // The blocks that alike addresses form can be written and read back.
  lemma AlikePromised(job: Job, s: nat, e: nat, head: nat, multi: bool)
    requires job.Sound() && Alike(job, s, e, head, multi) && e - s < 255
    ensures Promised(job.addrs[s..e + 1], job.addrLen, head, multi)
  {
    var block := job.addrs[s..e + 1];
    assert forall j :: 0 <= j < |block| ==> block[j] == job.addrs[s + j];
  }

  // ---- the session ----

  // The longest head both addresses share.
  function CommonHead(a: seq<byte>, b: seq<byte>): (h: nat)
    requires |a| == |b|
    ensures h <= |a| && a[..h] == b[..h]
    ensures h < |a| ==> a[h] != b[h]
  {
    if a == [] || a[0] != b[0] then 0
    else
      var h := CommonHead(a[1..], b[1..]);
      assert a[..h + 1] == [a[0]] + a[1..][..h] && b[..h + 1] == [b[0]] + b[1..][..h];
      h + 1
  }

  // The cheapest entry from `from` on, the shortest head among equals.
  function Best(acs: seq<Slot>, from: nat): (b: nat)
    requires from < |acs|
    ensures from <= b < |acs| && (forall i :: from <= i < |acs| ==> acs[b].total <= acs[i].total)
    ensures forall i :: from <= i < b ==> acs[b].total < acs[i].total
    decreases |acs| - from
  {
    if from + 1 == |acs| then from
    else
      var b := Best(acs, from + 1);
      if acs[b].total < acs[from].total then b else from
  }

  // The session after the entries with a longer head than `common` have been closed.
  function Leveled(acs: seq<Slot>, common: nat): (s: seq<Slot>)
    requires common < |acs|
    ensures |s| == |acs|
  {
    seq(|acs|, i requires 0 <= i < |acs| =>
      if i <= common then acs[i] else acs[i].(total := acs[Best(acs, common)].total))
  }

  // The end of a block as it is stored with its last address.
  function Marked(acs: seq<Slot>, common: nat, link: Link): Link
    requires common < |acs|
  {
    var b := Best(acs, common);
    if !acs[b].closed || link.blockStart.None? then
      link.(blockStart := Some(acs[b].ptr), multi := acs[b].multi, headLen := b)
    else link
  }

  function NewCost(job: Job, k: nat, i: nat): int
    requires k < |job.addrs|
  {
    2 + (if i > 0 then 1 else 0) + job.addrLen + (if job.addrs[k].plen != job.addrLen * 8 then 1 else 0) + 2
    + job.begin(k)
  }

  // An address on its own: the bytes of its block, two bytes for the length of the TLV block, and its TLVs.
  function AloneBytes(job: Job, k: nat): int
    requires job.Sound() && k < |job.addrs|
  {
    |BlockBytes([job.addrs[k]], job.addrLen, 0, false)| + 2 + job.begin(k)
  }

  // That is what is charged for it, with one byte more for the length of a head.
  lemma NewCostBytes(job: Job, k: nat, i: nat)
    requires job.Sound() && k < |job.addrs|
    ensures NewCost(job, k, i) == AloneBytes(job, k) + if i > 0 then 1 else 0
  {
    var one := [job.addrs[k]];
    assert one[..0] == [] && Mids(one, 0, job.addrLen) == one[0].bytes[0..job.addrLen];
  }

  function ContinueCost(job: Job, slot: Slot, k: nat, i: nat, run: nat): int {
    job.addrLen - i + (if slot.multi then 1 else if run == 1 then slot.ptr - k + 1 else 0) + job.more(slot.ptr, k)
  }

  // One entry after address k: continued, or closed and started anew. `top` is the total of the
  // entry with the longest head, `common` the head shared with the address before, if there is one.
  function Advanced(job: Job, slot: Slot, top: int, k: nat, i: nat, common: Option<nat>, run: nat): Slot
    requires k < |job.addrs|
  {
    if common.None? then Slot(k, top, NewCost(job, k, i), false, slot.closed)
    else if common.value < i || slot.total + ContinueCost(job, slot, k, i, run) > top + NewCost(job, k, i) then
      Slot(k, top, NewCost(job, k, i), false, true)
    else Slot(slot.ptr, slot.total, ContinueCost(job, slot, k, i, run), slot.multi || run == 1, false)
  }

  // Every open block is good, up to address `cur`.
  predicate Open(job: Job, acs: seq<Slot>, first: nat, cur: nat)
    requires job.Sound()
  {
    |acs| == job.addrLen
    && forall i :: 0 <= i < |acs| ==> first <= acs[i].ptr && Alike(job, acs[i].ptr, cur, i, acs[i].multi)
  }

  // Every open block that was not closed before address `cur` is good up to the address before.
  predicate OpenBefore(job: Job, acs: seq<Slot>, first: nat, cur: nat)
    requires job.Sound() && 0 < cur
  {
    |acs| == job.addrLen
    && forall i :: 0 <= i < |acs| && !acs[i].closed ==>
         first <= acs[i].ptr && Alike(job, acs[i].ptr, cur - 1, i, acs[i].multi)
  }

  // The link of address j names a good block that ends with it.
  predicate Ended(job: Job, link: Link, first: nat, j: nat)
    requires job.Sound()
  {
    && link.blockStart.Some? && first <= link.blockStart.value
    && Alike(job, link.blockStart.value, j, link.headLen, link.multi)
  }

  lemma MarkedEnds(job: Job, acs: seq<Slot>, common: nat, link: Link, first: nat, cur: nat)
    requires job.Sound() && common < job.addrLen && Open(job, acs, first, cur) && link.blockStart.None?
    ensures Ended(job, Marked(acs, common, link), first, cur)
  {
    hide Alike;
  }

  // The second closing of the last address, after the next one did not fit.
  lemma MarkedAgain(job: Job, acs: seq<Slot>, link: Link, first: nat, cur: nat)
    requires job.Sound() && 0 < cur && OpenBefore(job, acs, first, cur) && Ended(job, link, first, cur - 1)
    ensures Ended(job, Marked(acs, 0, link), first, cur - 1)
  {
    hide Alike;
  }

  lemma LeveledOpen(job: Job, acs: seq<Slot>, first: nat, cur: nat, common: nat)
    requires job.Sound() && common < job.addrLen && Open(job, acs, first, cur)
    ensures Open(job, Leveled(acs, common), first, cur)
  {
    hide Alike;
  }

  // Run length of equal prefix lengths that ends with address k.
  function NextRun(job: Job, k: nat, run: nat): nat
    requires 0 < k < |job.addrs|
  {
    if job.addrs[k - 1].plen == job.addrs[k].plen then run + 1 else 1
  }

  lemma HeadsShorten(a: seq<byte>, b: seq<byte>, h: nat, i: nat)
    requires i <= h <= |a| && h <= |b| && a[..h] == b[..h]
    ensures a[..i] == b[..i]
  {
    assert a[..i] == a[..h][..i] && b[..i] == b[..h][..i];
  }

  lemma AloneAlike(job: Job, k: nat, head: nat)
    requires job.Sound() && k < |job.addrs| && head < job.addrLen
    ensures Alike(job, k, k, head, false)
  {
  }

  // An entry stays good when the next address is added.
  lemma AdvancedOpen(job: Job, slot: Slot, top: int, first: nat, k: nat, i: nat, common: nat, run: nat)
    requires job.Sound() && first < k < |job.addrs| && i < job.addrLen && run >= 1
    requires common == CommonHead(job.addrs[k - 1].bytes, job.addrs[k].bytes)
    requires first <= slot.ptr && Alike(job, slot.ptr, k - 1, i, slot.multi)
    ensures var s := Advanced(job, slot, top, k, i, Some(common), NextRun(job, k, run));
            && first <= s.ptr && Alike(job, s.ptr, k, i, s.multi)
            && (!s.closed ==> Alike(job, s.ptr, k - 1, i, s.multi))
  {
    hide Alike, NewCost, ContinueCost;
    var s := Advanced(job, slot, top, k, i, Some(common), NextRun(job, k, run));
    if s.closed {
      AloneAlike(job, k, i);
    } else {
      HeadsShorten(job.addrs[k - 1].bytes, job.addrs[k].bytes, common, i);
      AlikeLonger(job, slot.ptr, k, i, slot.multi, s.multi);
      AlikeFlagged(job, slot.ptr, k - 1, i, slot.multi);
    }
  }

  lemma AlikeFlagged(job: Job, s: nat, e: nat, head: nat, multi: bool)
    requires job.Sound() && Alike(job, s, e, head, multi)
    ensures Alike(job, s, e, head, true)
  {
  }

  // The session after address k.
  predicate AdvancedAll(job: Job, before: seq<Slot>, after: seq<Slot>, k: nat, common: Option<nat>, run: nat)
    requires k < |job.addrs|
  {
    |before| == |after| > 0
    && forall i :: 0 <= i < |after| ==>
         after[i] == Advanced(job, before[i], before[|before| - 1].total, k, i, common, run)
  }

  // The head that an address shares with the one before it.
  function CommonAt(job: Job, k: nat): (h: nat)
    requires job.Sound() && 0 < k < |job.addrs|
    ensures h == CommonHead(job.addrs[k - 1].bytes, job.addrs[k].bytes) && h < job.addrLen
  {
    DifferentHeads(job, k);
    CommonHead(job.addrs[k - 1].bytes, job.addrs[k].bytes)
  }

  lemma DifferentHeads(job: Job, k: nat)
    requires job.Sound() && 0 < k < |job.addrs|
    ensures |job.addrs[k - 1].bytes| == |job.addrs[k].bytes| == job.addrLen
    ensures CommonHead(job.addrs[k - 1].bytes, job.addrs[k].bytes) < job.addrLen
  {
    var a, b := job.addrs[k - 1].bytes, job.addrs[k].bytes;
    assert a[..|a|] == a && b[..|b|] == b;
  }

  // Address k joins the addresses of the fragment before it.
  predicate Joined(job: Job, before: seq<Slot>, after: seq<Slot>, k: nat, run: nat)
    requires job.Sound() && 0 < k < |job.addrs|
  {
    && |before| == job.addrLen
    && AdvancedAll(job, Leveled(before, CommonAt(job, k)), after, k, Some(CommonAt(job, k)), run)
  }

  // No block can take address k: not a new one, and not one that is open.
  predicate Dear(job: Job, k: nat, maxSize: int)
    requires k < |job.addrs|
  {
    && (forall i | 0 <= i < job.addrLen :: NewCost(job, k, i) > maxSize)
    && forall s: nat | s <= k :: job.more(s, k) > maxSize + k
  }

  predicate Paid(acs: seq<Slot>) {
    forall i | 0 <= i < |acs| :: acs[i].total >= 0
  }

  lemma DearCosts(job: Job, before: seq<Slot>, after: seq<Slot>, k: nat, common: nat, run: nat, maxSize: int)
    requires k < |job.addrs| && |before| == job.addrLen && AdvancedAll(job, before, after, k, Some(common), run)
    requires Paid(before) && Dear(job, k, maxSize) && forall i | 0 <= i < |before| :: before[i].ptr <= k
    ensures forall i | 0 <= i < |after| :: after[i].total + after[i].current > maxSize
  {
    hide NewCost;
  }

  lemma LeveledPaid(acs: seq<Slot>, common: nat)
    requires common < |acs| && Paid(acs)
    ensures Paid(Leveled(acs, common))
  {
  }

  lemma SessionStarts(job: Job, before: seq<Slot>, after: seq<Slot>, k: nat)
    requires job.Sound() && k < |job.addrs| && |before| == job.addrLen && AdvancedAll(job, before, after, k, None, 1)
    ensures Open(job, after, k, k)
  {
    hide NewCost, ContinueCost, Alike;
    forall i | 0 <= i < |after|
      ensures k <= after[i].ptr && Alike(job, after[i].ptr, k, i, after[i].multi)
    {
      AloneAlike(job, k, i);
    }
  }

  lemma SessionContinues(job: Job, before: seq<Slot>, after: seq<Slot>, first: nat, k: nat, common: nat, run: nat)
    requires job.Sound() && first < k < |job.addrs| && Open(job, before, first, k - 1) && run >= 1
    requires common == CommonHead(job.addrs[k - 1].bytes, job.addrs[k].bytes)
    requires AdvancedAll(job, before, after, k, Some(common), NextRun(job, k, run))
    ensures Open(job, after, first, k) && OpenBefore(job, after, first, k)
  {
    hide Alike, NewCost, ContinueCost, Advanced, NextRun;
    var top := before[|before| - 1].total;
    forall i | 0 <= i < |after|
      ensures first <= after[i].ptr && Alike(job, after[i].ptr, k, i, after[i].multi)
      ensures !after[i].closed ==> Alike(job, after[i].ptr, k - 1, i, after[i].multi)
    {
      AdvancedOpen(job, before[i], top, first, k, i, common, run);
    }
  }

  // ---- the blocks of a fragment ----

  datatype Run = Run(start: nat, end: nat, headLen: nat, multi: bool)

  predicate Good(job: Job, b: Run)
    requires job.Sound()
  {
    Alike(job, b.start, b.end, b.headLen, b.multi)
  }

  // Good blocks, one behind the other, from address lo up to address hi.
  predicate Tiles(job: Job, blocks: seq<Run>, lo: nat, hi: nat)
    requires job.Sound()
    decreases |blocks|
  {
    if blocks == [] then lo == hi
    else
      && blocks[0].start == lo && blocks[0].end < hi && Good(job, blocks[0])
      && Tiles(job, blocks[1..], blocks[0].end + 1, hi)
  }

  // The addresses of a list of blocks.
  function Expand(job: Job, blocks: seq<Run>): seq<Address> {
    if blocks == [] then []
    else if blocks[0].start <= blocks[0].end < |job.addrs| then
      job.addrs[blocks[0].start..blocks[0].end + 1] + Expand(job, blocks[1..])
    else Expand(job, blocks[1..])
  }

  // The blocks of a fragment hold its addresses, in order.
  lemma {:induction false} TilesExpand(job: Job, blocks: seq<Run>, lo: nat, hi: nat)
    requires job.Sound() && Tiles(job, blocks, lo, hi) && hi <= |job.addrs|
    ensures lo <= hi && Expand(job, blocks) == job.addrs[lo..hi]
    decreases |blocks|
  {
    if blocks != [] {
      TilesExpand(job, blocks[1..], blocks[0].end + 1, hi);
      assert job.addrs[lo..hi] == job.addrs[lo..blocks[0].end + 1] + job.addrs[blocks[0].end + 1..hi];
    }
  }

  // The blocks met when the forward pointers are followed from address s up to address hi.
  function Chain(links: seq<Link>, s: nat, hi: nat): seq<Run>
    requires s <= hi <= |links|
    decreases hi - s
  {
    if s == hi then []
    else match links[s].blockEnd
      case Some(e) =>
        if s <= e < hi then [Run(s, e, links[s].headLen, links[s].multi)] + Chain(links, e + 1, hi) else []
      case None => []
  }

  lemma {:induction false} ChainFrame(links: seq<Link>, links': seq<Link>, s: nat, hi: nat)
    requires |links| == |links'| && s <= hi <= |links| && forall j :: s <= j < |links| ==> links[j] == links'[j]
    ensures Chain(links, s, hi) == Chain(links', s, hi)
    decreases hi - s
  {
    if s < hi && links[s].blockEnd.Some? && s <= links[s].blockEnd.value < hi {
      ChainFrame(links, links', links[s].blockEnd.value + 1, hi);
    }
  }

  // The forward pointer of a block is stored with its first address.
  function Forwarded(links: seq<Link>, j: nat): (r: seq<Link>)
    requires j < |links| && links[j].blockStart.Some? && links[j].blockStart.value < |links|
    ensures |r| == |links|
  {
    var s := links[j].blockStart.value;
    links[s := links[s].(blockEnd := Some(j), multi := links[j].multi, headLen := links[j].headLen)]
  }

  // The block that ends with address j.
  function EndingAt(links: seq<Link>, j: nat): Run
    requires j < |links| && links[j].blockStart.Some?
  {
    Run(links[j].blockStart.value, j, links[j].headLen, links[j].multi)
  }

  lemma ForwardStep(job: Job, links: seq<Link>, first: nat, j: nat, hi: nat)
    requires job.Sound() && j < hi <= |links| == |job.addrs| && Ended(job, links[j], first, j)
    requires Tiles(job, Chain(links, j + 1, hi), j + 1, hi)
    ensures Tiles(job, Chain(Forwarded(links, j), links[j].blockStart.value, hi), links[j].blockStart.value, hi)
    ensures Chain(Forwarded(links, j), links[j].blockStart.value, hi) == [EndingAt(links, j)] + Chain(links, j + 1, hi)
  {
    var s, links' := links[j].blockStart.value, Forwarded(links, j);
    ChainFrame(links, links', j + 1, hi);
    var b := Run(s, j, links[j].headLen, links[j].multi);
    assert Good(job, b);
    hide Alike, Good;
    assert Chain(links', s, hi) == [b] + Chain(links', j + 1, hi);
    assert ([b] + Chain(links', j + 1, hi))[1..] == Chain(links', j + 1, hi);
  }
}
