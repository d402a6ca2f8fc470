// Messages that turn out larger than they may be.
module AddrOverrun {
  import opened Basics
  import opened Rfc5444
  import opened AddrBlock
  import opened AddrCompress
  import opened AddrCost
  import opened AddrFragment

  // ---- a change of the prefix length is charged too little ----

  // 10.0.0.1/24 and 11.0.0.2/16, without TLVs.
  ghost predicate TwoLengths(job: Job) {
    && job.Sound() && job.addrLen == 4
    && job.addrs == [Address([10, 0, 0, 1], 24), Address([11, 0, 0, 2], 16)]
    && job.begin(0) == 0 && job.begin(1) == 0 && job.more(0, 1) == 0
  }

  // The session when the second one is added.
  function TwoMiddle(): seq<Slot> {
    [Slot(0, 9, 4, true, false), Slot(1, 9, 10, false, true), Slot(1, 9, 10, false, true), Slot(1, 9, 10, false, true)]
  }

  lemma TwoJoined(job: Job, before: seq<Slot>)
    requires TwoLengths(job) && Single(job, before, 0)
    ensures Joined(job, before, TwoMiddle(), 1, 1) && SomeFits(TwoMiddle(), 13, 1) && NextRun(job, 1, 1) == 1
  {
    assert CommonAt(job, 1) == 0 by {
      assert job.addrs[0].bytes[0] != job.addrs[1].bytes[0];
    }
    assert Best(before, 0) == 0;
    assert Fits(TwoMiddle()[0], 13, 1);
  }

  lemma TwoGrown(job: Job, before: seq<Slot>, after: seq<Slot>)
    requires TwoLengths(job) && Single(job, before, 0)
    ensures Takes(job, before, 1, 1, 13)
    ensures Grown(job, before, after, 1, 1, 13) ==> after != [] && Closing(after, 1) == Run(0, 1, 0, true)
  {
    TwoJoined(job, before);
    Grows(job, before, TwoMiddle(), after, 1, 1, 13);
    if Grown(job, before, after, 1, 1, 13) {
      var mid :| Joined(job, before, mid, 1, 1) && SomeFits(mid, 13, 1) && Charged(mid, after);
      JoinedOnce(job, before, mid, TwoMiddle(), 1, 1);
      assert Best(after, 0) == 0;
    }
  }

  // Both addresses are taken into a message of 13 bytes, and their block takes 14.
  method Overlong(c: Composer)
    requires c.Inv(0, 0) && c.first && c.ptr == 0 && c.sent == [] && TwoLengths(c.job) && c.maxSize == 13
    modifies c, c.acs, c.links
    ensures exists blocks ::
      && c.sent == [Fragment(0, 2, blocks)] && Tiles(c.job, blocks, 0, 2) && blocks == [Run(0, 1, 0, true)]
      && Short(c.job, blocks) && SizeOf(c.job, blocks) == 14
  {
    hide Sent, Composer.Collecting, DoneUpTo, Unstarted, Single, Takes, Grown, Leaves, TwoLengths, EndsWith, Modest;
    hide Tiles, SizeOf, Short;
    TwoFits(c.job);
    var tooSmall;
    ghost var lo, next;
    tooSmall, lo, next := c.Step(0, 0);
    ghost var before := c.acs[..];
    TwoGrown(c.job, before, before);
    TwoJoined(c.job, before);
    tooSmall, lo, next := c.Step(0, 1);
    TwoGrown(c.job, before, c.acs[..]);
    c.Finish(0, 2);
    ghost var blocks := c.sent[0].blocks;
    OneFragment(c.job, c.sent);
    OneBlock(c.job, blocks);
    TwoSize(c.job);
  }

  lemma TwoFits(job: Job)
    requires TwoLengths(job)
    ensures job.Sound() && |job.addrs| == 2 && NewCost(job, 0, 0) == 9
  {
  }

  lemma OneFragment(job: Job, sent: seq<Fragment>)
    requires job.Sound() && |sent| == 1 && Sent(job, sent, 2)
    ensures Tiles(job, sent[0].blocks, sent[0].first, 2)
  {
    hide Tiles;
  }

  // A block that ends a list and begins where the list begins is all of it.
  lemma OneBlock(job: Job, blocks: seq<Run>)
    requires job.Sound() && Tiles(job, blocks, 0, 2) && EndsWith(blocks, Run(0, 1, 0, true))
    ensures blocks == [Run(0, 1, 0, true)]
  {
    LaterStart(job, blocks, 0, 2);
  }

  lemma {:induction false} LaterStart(job: Job, blocks: seq<Run>, lo: nat, hi: nat)
    requires job.Sound() && Tiles(job, blocks, lo, hi)
    ensures forall k :: 0 <= k < |blocks| ==> lo <= blocks[k].start
    ensures forall k :: 0 < k < |blocks| ==> blocks[0].end < blocks[k].start
    decreases |blocks|
  {
    if blocks != [] {
      assert Good(job, blocks[0]);
      hide Alike;
      LaterStart(job, blocks[1..], blocks[0].end + 1, hi);
      assert forall k :: 0 < k < |blocks| ==> blocks[k] == blocks[1..][k - 1];
    }
  }

  lemma TwoSize(job: Job)
    requires TwoLengths(job)
    ensures Short(job, [Run(0, 1, 0, true)]) && SizeOf(job, [Run(0, 1, 0, true)]) == 14
  {
    var b := Run(0, 1, 0, true);
    assert Good(job, b);
    var block := job.addrs[0..2];
    assert block == job.addrs;
    AlikePromised(job, 0, 1, 0, true);
    BlockSize(block, 4, 0, true);
    NoTail(job, block);
    assert [b][1..] == [];
    assert TlvCharge(job, 0, 1) == 0;
  }

  lemma NoTail(job: Job, block: seq<Address>)
    requires TwoLengths(job) && block == job.addrs && Block(block, 4)
    ensures LayoutOf(block, 4, 0, true).tail == 0
  {
    forall t | 0 < t <= 3
      ensures !SameTail(block, 4, t)
    {
      assert block[0].bytes[4 - t..][t - 1] != block[1].bytes[4 - t..][t - 1];
    }
  }

  lemma TwoLengthsJob() returns (job: Job)
    ensures TwoLengths(job)
  {
    job := Job([Address([10, 0, 0, 1], 24), Address([11, 0, 0, 2], 16)], 4, k => 0, (s, k) => 0);
    assert job.addrs[0].bytes[0] != job.addrs[1].bytes[0];
  }

  // ---- the dearer block is kept ----

  // Three addresses of two bytes; going on at the third one is dear.
  ghost predicate DearToContinue(job: Job) {
    && job.Sound() && job.addrLen == 2
    && job.addrs == [Address([1, 0], 16), Address([2, 0], 16), Address([2, 1], 16)]
    && (forall k: nat :: job.begin(k) == 0) && forall s: nat, k: nat :: job.more(s, k) == if k == 2 then 100 else 0
  }

  // The session when the second and the third one are added.
  function SecondMiddle(): seq<Slot> {
    [Slot(0, 6, 2, false, false), Slot(1, 6, 7, false, true)]
  }

  function ThirdMiddle(): seq<Slot> {
    [Slot(2, 13, 6, false, true), Slot(2, 13, 7, false, true)]
  }

  function SecondTaken(): seq<Slot> {
    [Slot(0, 8, 2, false, false), Slot(1, 13, 7, false, true)]
  }

  lemma SecondJoins(job: Job, before: seq<Slot>)
    requires DearToContinue(job) && Single(job, before, 0)
    ensures Joined(job, before, SecondMiddle(), 1, 2) && SomeFits(SecondMiddle(), 10, 1) && NextRun(job, 1, 1) == 2
    ensures Takes(job, before, 1, 2, 10)
  {
    assert CommonAt(job, 1) == 0 by {
      assert job.addrs[0].bytes[0] != job.addrs[1].bytes[0];
    }
    assert Best(before, 0) == 0;
    assert Fits(SecondMiddle()[0], 10, 1);
    Grows(job, before, SecondMiddle(), SecondTaken(), 1, 2, 10);
  }

  lemma SecondGrows(job: Job, before: seq<Slot>, after: seq<Slot>)
    requires DearToContinue(job) && Single(job, before, 0) && Grown(job, before, after, 1, 2, 10)
    ensures after == SecondTaken()
  {
    SecondJoins(job, before);
    var mid :| Joined(job, before, mid, 1, 2) && SomeFits(mid, 10, 1) && Charged(mid, after);
    JoinedOnce(job, before, mid, SecondMiddle(), 1, 2);
  }

  lemma ThirdLeaves(job: Job, cost: int)
    requires DearToContinue(job)
    ensures NextRun(job, 2, 2) == 3 && !Takes(job, SecondTaken(), 2, 3, 10)
    ensures Leaves(job, SecondTaken(), 2, 3, cost) ==> cost == 13
  {
    assert CommonAt(job, 2) == 1 by {
      assert job.addrs[1].bytes[..1] == job.addrs[2].bytes[..1] && job.addrs[1].bytes[1] != job.addrs[2].bytes[1];
      HeadFound(job.addrs[1].bytes, job.addrs[2].bytes, 1);
    }
    assert Joined(job, SecondTaken(), ThirdMiddle(), 2, 3);
    forall mid | Joined(job, SecondTaken(), mid, 2, 3)
      ensures mid == ThirdMiddle()
    {
      JoinedOnce(job, SecondTaken(), mid, ThirdMiddle(), 2, 3);
    }
    assert Best(ThirdMiddle(), 0) == 0;
  }

  // The fragment of the first two addresses costs 13 where 10 are allowed, although they would fit one block
  // that costs 8: the third address has closed that one.
  method TooDear(c: Composer)
    requires c.Inv(0, 0) && c.first && c.ptr == 0 && c.sent == [] && DearToContinue(c.job) && c.maxSize == 10
    modifies c, c.acs, c.links
    ensures |c.sent| == 1 && c.sent[0].first == 0 && c.sent[0].end == 2
    ensures CostOf(c.job, c.sent[0].blocks) == 13 && Charge(c.job, 0, 1, 0) == 8 && !Gentle(c.job)
  {
    hide Sent, Composer.Collecting, DoneUpTo, Unstarted, Single, Takes, Grown, Leaves, DearToContinue, Modest, CostOf;
    hide Charge, Gentle;
    DearFits(c.job);
    var tooSmall;
    ghost var lo, next;
    tooSmall, lo, next := c.Step(0, 0);
    ghost var before := c.acs[..];
    SecondJoins(c.job, before);
    tooSmall, lo, next := c.Step(0, 1);
    SecondGrows(c.job, before, c.acs[..]);
    ThirdLeaves(c.job, 0);
    tooSmall, lo, next := c.Step(0, 2);
    ThirdLeaves(c.job, LastCost(c.job, c.sent));
  }

  lemma DearToContinueJob() returns (job: Job)
    ensures DearToContinue(job)
  {
    var addrs := [Address([1, 0], 16), Address([2, 0], 16), Address([2, 1], 16)];
    job := Job(addrs, 2, k => 0, (s, k) => if k == 2 then 100 else 0);
    assert addrs[0].bytes[0] != addrs[1].bytes[0] && addrs[1].bytes[1] != addrs[2].bytes[1];
  }

  lemma DearFits(job: Job)
    requires DearToContinue(job)
    ensures job.Sound() && |job.addrs| == 3 && NewCost(job, 0, 0) == 6 && Charge(job, 0, 1, 0) == 8 && !Gentle(job)
  {
    assert job.more(1, 2) == 100;
    assert !Mixed(job, 0, 0);
  }
}
