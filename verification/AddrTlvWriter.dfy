// The loop that groups the TLVs of the addresses of a block and writes the groups.
module AddrTlvWriter {
  import opened Basics
  import opened Rfc5444
  import opened AddrBlock
  import opened AddrBlockIo
  import opened AddrTlv

  // The value of the TLV of a kind (avl_find in the TLV tree of an address).
  function Lookup(tree: seq<Tlv>, kind: nat): (v: Option<seq<byte>>)
    ensures v.Some? ==> Tlv(kind, v.value) in tree
    ensures v.None? ==> forall k :: 0 <= k < |tree| ==> tree[k].kind != kind
  {
    if tree == [] then None
    else if tree[0].kind == kind then Some(tree[0].value) else Lookup(tree[1..], kind)
  }

  lemma LookupUnique(tree: seq<Tlv>, t: Tlv)
    requires TlvTree(tree) && t in tree
    ensures Lookup(tree, t.kind) == Some(t.value)
  {
  }

  // The groups being collected, in the order in which their kinds became active.
  function Collected(active: seq<nat>, current: map<nat, Group>): (s: seq<Group>)
    requires forall k :: 0 <= k < |active| ==> active[k] in current
    ensures |s| == |active|
  {
    seq(|active|, k requires 0 <= k < |active| => current[active[k]])
  }

  predicate Activated(active: seq<nat>, current: map<nat, Group>) {
    && (forall k :: 0 <= k < |active| ==> active[k] in current)
    && (forall t :: t in current ==> t in active)
    && forall j, k :: 0 <= j < k < |active| ==> active[j] != active[k]
  }

  // The group of kind t, somewhere before or at address a.
  predicate Collecting(g: Group, t: nat, trees: seq<seq<Tlv>>, a: nat) {
    && Grouped(g, |trees|) && g.kind == t && Last(g) <= a && Tlv(t, g.values[|g.values| - 1]) in trees[Last(g)]
  }

  predicate AllCollecting(current: map<nat, Group>, trees: seq<seq<Tlv>>, a: nat) {
    forall t :: t in current ==> Collecting(current[t], t, trees, a)
  }

  predicate Trees(trees: seq<seq<Tlv>>) {
    0 < |trees| < 256 && forall i :: 0 <= i < |trees| ==> TlvTree(trees[i])
  }

  // What address i should mean when the first j TLVs of address a have been handled.
  function Expected(trees: seq<seq<Tlv>>, a: nat, j: nat, i: nat): multiset<Tlv>
    requires i < |trees| && (i == a ==> j <= |trees[a]|)
  {
    if i < a then multiset(trees[i]) else if i == a then multiset(trees[a][..j]) else multiset{}
  }

  function Only(i: nat, a: nat, t: Tlv): multiset<Tlv> {
    if i == a then multiset{t} else multiset{}
  }

  lemma ExpectedStep(trees: seq<seq<Tlv>>, a: nat, j: nat, i: nat)
    requires i < |trees| && a < |trees| && j < |trees[a]|
    ensures Expected(trees, a, j + 1, i) == Expected(trees, a, j, i) + Only(i, a, trees[a][j])
  {
    assert trees[a][..j + 1] == trees[a][..j] + [trees[a][j]];
  }

  lemma ExpectedNext(trees: seq<seq<Tlv>>, a: nat, i: nat)
    requires i < |trees| && a < |trees|
    ensures Expected(trees, a, |trees[a]|, i) == Expected(trees, a + 1, 0, i)
  {
    assert trees[a][..|trees[a]|] == trees[a];
  }

  function Single(t: Tlv, a: nat): Group {
    Group(t.kind, a, [t.value], true)
  }

  function Longer(g: Group, v: seq<byte>, sameValue: bool): Group {
    Group(g.kind, g.lo, g.values + [v], g.same && sameValue)
  }

  lemma SingleHit(t: Tlv, a: nat, i: nat)
    ensures Hit(Single(t, a), i) == Only(i, a, t)
  {
  }

  lemma LongerHit(g: Group, t: Tlv, a: nat, same: bool, i: nat)
    requires g.values != [] && Last(g) + 1 == a && g.kind == t.kind
    ensures Hit(Longer(g, t.value, same), i) == Hit(g, i) + Only(i, a, t)
  {
  }

  lemma SingleGrouped(t: Tlv, a: nat, n: nat)
    requires a < n && t.kind < 65536 && |t.value| < 65536
    ensures Grouped(Single(t, a), n)
  {
  }

  lemma LongerGrouped(g: Group, v: seq<byte>, n: nat)
    requires Grouped(g, n) && Last(g) + 1 < n && |v| == |g.values[|g.values| - 1]|
    ensures Grouped(Longer(g, v, v == g.values[|g.values| - 1]), n)
  {
    var g' := Longer(g, v, v == g.values[|g.values| - 1]);
    var l := |g.values| - 1;
    assert g'.values[l] == g.values[l] && g'.values[l + 1] == v && g'.values[0] == g.values[0];
    if g'.same {
      assert g.values[l] == g.values[0];
    } else if g.same {
      assert g'.values[l + 1] != g'.values[0];
    } else {
      var k :| 0 <= k < |g.values| && g.values[k] != g.values[0];
      assert g'.values[k] != g'.values[0];
    }
  }

  // One TLV more is collected, whichever way it is done.
  lemma CollectNew(active: seq<nat>, current: map<nat, Group>, t: Tlv, a: nat, i: nat)
    requires Activated(active, current) && t.kind !in current
    ensures var active', current' := active + [t.kind], current[t.kind := Single(t, a)];
      Activated(active', current')
      && Meaning(Collected(active', current'), i) == Meaning(Collected(active, current), i) + Only(i, a, t)
  {
    hide Meaning, Hit, Only, Single;
    var active', current' := active + [t.kind], current[t.kind := Single(t, a)];
    assert Collected(active', current') == Collected(active, current) + [Single(t, a)];
    MeaningConcat(Collected(active, current), [Single(t, a)], i);
    MeaningOne(Single(t, a), i);
    SingleHit(t, a, i);
  }

  lemma MeaningOne(g: Group, i: nat)
    ensures Meaning([g], i) == Hit(g, i)
  {
    assert Meaning([g][..0], i) == multiset{};
  }

  lemma CollectUpdate(active: seq<nat>, current: map<nat, Group>, kind: nat, g: Group, i: nat)
    requires Activated(active, current) && kind in current
    ensures Activated(active, current[kind := g])
    ensures Meaning(Collected(active, current[kind := g]), i) + Hit(current[kind], i)
         == Meaning(Collected(active, current), i) + Hit(g, i)
  {
    hide Meaning, Hit;
    var k :| 0 <= k < |active| && active[k] == kind;
    assert Collected(active, current[kind := g]) == Collected(active, current)[k := g];
    MeaningUpdate(Collected(active, current), k, g, i);
  }

  // Groups that end with address a belong to kinds that come before `kind`.
  predicate Behind(current: map<nat, Group>, a: nat, kind: nat) {
    forall t :: t in current && current[t].values != [] && Last(current[t]) == a ==> t < kind
  }

  // Written and collected groups together mean what is expected.
  predicate Covers(done: seq<Group>, active: seq<nat>, current: map<nat, Group>, trees: seq<seq<Tlv>>, a: nat, j: nat)
    requires Activated(active, current) && (a < |trees| ==> j <= |trees[a]|)
  {
    forall i :: 0 <= i < |trees| ==>
      Meaning(done, i) + Meaning(Collected(active, current), i) == Expected(trees, a, j, i)
  }

  lemma TreeFacts(trees: seq<seq<Tlv>>, a: nat, j: nat)
    requires Trees(trees) && a < |trees| && j < |trees[a]|
    ensures trees[a][j].kind < 65536 && |trees[a][j].value| < 65536 && TlvTree(trees[a])
    ensures a > 0 ==> TlvTree(trees[a - 1])
    ensures j + 1 < |trees[a]| ==> trees[a][j].kind < trees[a][j + 1].kind
    ensures Grouped(Single(trees[a][j], a), |trees|)
  {
    SingleGrouped(trees[a][j], a, |trees|);
  }

  lemma Swap(done: multiset<Tlv>, gone: multiset<Tlv>, before: multiset<Tlv>, more: multiset<Tlv>, after: multiset<Tlv>)
    requires after + gone == before + more
    ensures done + gone + after == done + before + more
  {
    assert done + gone + after == done + (after + gone);
  }

  lemma Cancel(g: multiset<Tlv>, before: multiset<Tlv>, more: multiset<Tlv>, after: multiset<Tlv>)
    requires after + g == before + (g + more)
    ensures after == before + more
  {
    assert after + g - g == after && before + (g + more) - g == before + more;
  }

  lemma CoversNew(done: seq<Group>, active: seq<nat>, current: map<nat, Group>, trees: seq<seq<Tlv>>, a: nat, j: nat)
    requires Activated(active, current) && a < |trees| && j < |trees[a]| && trees[a][j].kind !in current
    requires Covers(done, active, current, trees, a, j)
    ensures var t := trees[a][j];
      && Activated(active + [t.kind], current[t.kind := Single(t, a)])
      && Covers(done, active + [t.kind], current[t.kind := Single(t, a)], trees, a, j + 1)
  {
    hide Meaning, Expected, Only, Collected, Single;
    var t := trees[a][j];
    CollectNew(active, current, t, a, 0);
    forall i | 0 <= i < |trees|
      ensures Meaning(done, i) + Meaning(Collected(active + [t.kind], current[t.kind := Single(t, a)]), i)
           == Expected(trees, a, j + 1, i)
    {
      CollectNew(active, current, t, a, i);
      ExpectedStep(trees, a, j, i);
    }
  }

  lemma CoversFlush(done: seq<Group>, active: seq<nat>, current: map<nat, Group>, trees: seq<seq<Tlv>>, a: nat, j: nat)
    requires Activated(active, current) && a < |trees| && j < |trees[a]| && trees[a][j].kind in current
    requires Covers(done, active, current, trees, a, j)
    ensures var t := trees[a][j];
      && Activated(active, current[t.kind := Single(t, a)])
      && Covers(done + [current[t.kind]], active, current[t.kind := Single(t, a)], trees, a, j + 1)
  {
    hide Meaning, Expected, Only, Collected, Single, Hit;
    var t := trees[a][j];
    CollectUpdate(active, current, t.kind, Single(t, a), 0);
    forall i | 0 <= i < |trees|
      ensures Meaning(done + [current[t.kind]], i) + Meaning(Collected(active, current[t.kind := Single(t, a)]), i)
           == Expected(trees, a, j + 1, i)
    {
      CollectUpdate(active, current, t.kind, Single(t, a), i);
      MeaningConcat(done, [current[t.kind]], i);
      MeaningOne(current[t.kind], i);
      SingleHit(t, a, i);
      ExpectedStep(trees, a, j, i);
      Swap(Meaning(done, i), Hit(current[t.kind], i), Meaning(Collected(active, current), i), Only(i, a, t),
           Meaning(Collected(active, current[t.kind := Single(t, a)]), i));
    }
  }

  lemma CoversLonger(done: seq<Group>, active: seq<nat>, current: map<nat, Group>, trees: seq<seq<Tlv>>, a: nat,
                     j: nat, same: bool)
    requires Activated(active, current) && a < |trees| && j < |trees[a]| && trees[a][j].kind in current
    requires Covers(done, active, current, trees, a, j)
    requires var g := current[trees[a][j].kind]; g.values != [] && Last(g) + 1 == a && g.kind == trees[a][j].kind
    ensures var t := trees[a][j];
      && Activated(active, current[t.kind := Longer(current[t.kind], t.value, same)])
      && Covers(done, active, current[t.kind := Longer(current[t.kind], t.value, same)], trees, a, j + 1)
  {
    hide Meaning, Expected, Only, Collected, Longer, Hit;
    var t := trees[a][j];
    var g' := Longer(current[t.kind], t.value, same);
    CollectUpdate(active, current, t.kind, g', 0);
    forall i | 0 <= i < |trees|
      ensures Meaning(done, i) + Meaning(Collected(active, current[t.kind := g']), i) == Expected(trees, a, j + 1, i)
    {
      CollectUpdate(active, current, t.kind, g', i);
      LongerHit(current[t.kind], t, a, same, i);
      ExpectedStep(trees, a, j, i);
      Cancel(Hit(current[t.kind], i), Meaning(Collected(active, current), i), Only(i, a, t),
             Meaning(Collected(active, current[t.kind := g']), i));
    }
  }

  lemma CoversNothing(trees: seq<seq<Tlv>>)
    requires Trees(trees)
    ensures Activated([], map[]) && Covers([], [], map[], trees, 0, 0)
  {
    assert Collected([], map[]) == [];
    forall i | 0 <= i < |trees|
      ensures Expected(trees, 0, 0, i) == multiset{}
    {
      assert trees[0][..0] == [];
    }
  }

  lemma NextAddress(done: seq<Group>, active: seq<nat>, current: map<nat, Group>, trees: seq<seq<Tlv>>, a: nat)
    requires Trees(trees) && a < |trees| && Activated(active, current)
    requires AllCollecting(current, trees, a) && Covers(done, active, current, trees, a, |trees[a]|)
    ensures AllCollecting(current, trees, a + 1) && Covers(done, active, current, trees, a + 1, 0)
    ensures a + 1 < |trees| && 0 < |trees[a + 1]| ==> Behind(current, a + 1, trees[a + 1][0].kind)
  {
    hide Meaning, Expected, Collected, TlvTree, Grouped;
    forall i | 0 <= i < |trees|
      ensures Meaning(done, i) + Meaning(Collected(active, current), i) == Expected(trees, a + 1, 0, i)
    {
      ExpectedNext(trees, a, i);
    }
  }

  lemma CollectingGrouped(current: map<nat, Group>, trees: seq<seq<Tlv>>, a: nat)
    requires AllCollecting(current, trees, a)
    ensures forall t :: t in current ==> Grouped(current[t], |trees|)
  {
  }

  lemma CoversAll(done: seq<Group>, active: seq<nat>, current: map<nat, Group>, trees: seq<seq<Tlv>>,
                  groups: seq<Group>)
    requires Trees(trees) && Activated(active, current) && Covers(done, active, current, trees, |trees|, 0)
    requires groups == done + Collected(active, current)
    ensures forall i :: 0 <= i < |trees| ==> Meaning(groups, i) == multiset(trees[i])
  {
    hide Meaning, Collected, TlvTree;
    forall i | 0 <= i < |trees|
      ensures Meaning(groups, i) == multiset(trees[i])
    {
      MeaningConcat(done, Collected(active, current), i);
    }
  }

  // A group that ends with the TLV just added.
  lemma AddedCollecting(current: map<nat, Group>, trees: seq<seq<Tlv>>, a: nat, j: nat, g: Group)
    requires a < |trees| && j < |trees[a]| && AllCollecting(current, trees, a) && Behind(current, a, trees[a][j].kind)
    requires Grouped(g, |trees|) && Last(g) == a && Tlv(g.kind, g.values[|g.values| - 1]) == trees[a][j]
    ensures AllCollecting(current[trees[a][j].kind := g], trees, a)
    ensures j + 1 < |trees[a]| && trees[a][j].kind < trees[a][j + 1].kind ==>
      Behind(current[trees[a][j].kind := g], a, trees[a][j + 1].kind)
  {
    hide Grouped;
  }

  lemma GroupsWritten(start: seq<byte>, done: seq<Group>, g: Group, n: nat)
    requires n < 256 && AllGrouped(done, n) && Grouped(g, n)
    ensures AllGrouped(done + [g], n)
    ensures start + GroupsBytes(done, n) + GroupBytes(g, n) == start + GroupsBytes(done + [g], n)
  {
    hide GroupBytes, Grouped;
    assert (done + [g])[..|done|] == done;
  }

  // The flags as the writer sets them, one part at a time.
  function TypeFlag(kind: nat): byte {
    if kind % 256 > 0 then SetFlag(0, TLV_TYPEEXT) else 0
  }

  function RangeFlag(f: byte, lo: nat, hi: nat, n: nat): byte {
    if lo == 0 && hi == n - 1 then f else SetFlag(f, if lo == hi then TLV_SINGLE_IDX else TLV_MULTI_IDX)
  }

  function ValuesFlag(f: byte, same: bool): byte {
    if same then f else SetFlag(f, TLV_MULTIVALUE)
  }

  function LengthFlag(f: byte, total: nat): byte {
    var f' := if total > 255 then SetFlag(f, TLV_EXTVALUE) else f;
    if total > 0 then SetFlag(f', TLV_VALUE) else f'
  }

  lemma TlvFlagsSet(g: Group, n: nat)
    requires g.values != []
    ensures TlvFlags(g, n)
         == LengthFlag(ValuesFlag(RangeFlag(TypeFlag(g.kind), g.lo, Last(g), n), g.same), TotalLength(g))
  {
    hide TotalLength, Last;
    var f1 := if g.kind % 256 > 0 then TLV_TYPEEXT else 0;
    var f2 := f1 + IndexFlag(g.lo, Last(g), n);
    var f3 := f2 + if g.same then 0 else TLV_MULTIVALUE;
    RangeFlagSet(f1, g.lo, Last(g), n);
    ValuesFlagSet(f2, g.same);
    LengthFlagSet(f3, TotalLength(g));
    hide SetFlag, RangeFlag, ValuesFlag, LengthFlag, IndexFlag, LengthFlags;
    assert TypeFlag(g.kind) == f1;
  }

  lemma RangeFlagSet(f: byte, lo: nat, hi: nat, n: nat)
    requires f == 0 || f == TLV_TYPEEXT
    ensures RangeFlag(f, lo, hi, n) == f + IndexFlag(lo, hi, n) && IndexFlag(lo, hi, n) in {0, 0x40, 0x20}
  {
  }

  lemma ValuesFlagSet(f: byte, same: bool)
    requires f in {0, 0x40, 0x20, 0x80, 0xc0, 0xa0}
    ensures ValuesFlag(f, same) == f + if same then 0 else TLV_MULTIVALUE
  {
  }

  // The flags before the length are multiples of 4.
  lemma LengthFlagSet(f: byte, total: nat)
    requires f % 32 == 0 || f % 32 == 4
    ensures LengthFlag(f, total) == f + LengthFlags(total)
  {
    var rest := f / 32;
    assert f == 32 * rest + f % 32;
    hide SetFlag;
    SetFree(f, TLV_EXTVALUE);
    SetFree(f, TLV_VALUE);
    SetFree(f + TLV_EXTVALUE, TLV_VALUE);
  }

  lemma SetFree(f: byte, mask: nat)
    requires mask == TLV_VALUE || mask == TLV_EXTVALUE
    requires f % 32 in {0, 4} || (f % 32 in {8, 12} && mask == TLV_VALUE)
    ensures SetFlag(f, mask) == f + mask
  {
  }

  lemma GroupFields(g: Group, n: nat)
    requires Grouped(g, n)
    ensures g.values != [] && g.kind < 65536 && g.lo <= Last(g) < n && (g.lo == Last(g) <==> |g.values| == 1)
    ensures |g.values[0]| == 0 ==> ValueBytes(g) == []
  {
    if |g.values[0]| == 0 {
      EmptyValues(g, n);
    }
  }

  lemma FlattenTlv(s: seq<byte>, a: seq<byte>, e: seq<byte>, i: seq<byte>, l: seq<byte>, v: seq<byte>)
    ensures s + a + (e + i + l + v) == s + (a + e + i + l + v)
  {
  }

  class TlvWriter {
    const buffer: MessageBuffer
    // per kind: the list of TLVs of the group being collected
    var current: map<nat, Group>
    var active: seq<nat>

    constructor (buffer: MessageBuffer)
      ensures this.buffer == buffer
    {
      this.buffer, current, active := buffer, map[], [];
    }

    method WriteType(kind: nat, flag: nat, ghost start: seq<byte>)
      requires kind < 65536 && buffer.out == start && flag == |start| + 1
      modifies buffer
      ensures buffer.out == start + [kind / 256, TypeFlag(kind)] + (if kind % 256 > 0 then [kind % 256] else [])
    {
      hide SetFlag;
      buffer.out := buffer.out + [kind / 256, 0];
      if kind % 256 > 0 {
        assert buffer.out == start + [kind / 256, 0] + [];
        buffer.Part([kind % 256], flag, TLV_TYPEEXT, start, kind / 256, 0, []);
        assert [] + [kind % 256] == [kind % 256];
      }
    }

    method WriteIndex(lo: byte, hi: byte, n: nat, flag: nat, ghost start: seq<byte>, ghost num: byte, ghost f: byte,
                      ghost body: seq<byte>)
      requires buffer.out == start + [num, f] + body && flag == |start| + 1
      modifies buffer
      ensures buffer.out == start + [num, RangeFlag(f, lo, hi, n)] + (body + IndexBytes(lo, hi, n))
    {
      hide SetFlag;
      if lo == 0 && hi == n - 1 {
        // all addresses of the block have it
        assert body + [] == body;
      } else if lo == hi {
        buffer.Part([lo], flag, TLV_SINGLE_IDX, start, num, f, body);
      } else {
        buffer.Part([lo, hi], flag, TLV_MULTI_IDX, start, num, f, body);
      }
    }

    method WriteLength(total: nat, same: bool, flag: nat, ghost start: seq<byte>, ghost num: byte, ghost f: byte,
                       ghost body: seq<byte>)
      requires buffer.out == start + [num, f] + body && flag == |start| + 1 && total < 65536
      modifies buffer
      ensures buffer.out == start + [num, LengthFlag(ValuesFlag(f, same), total)] + (body + LengthBytes(total))
    {
      hide SetFlag;
      ghost var f', body' := f, body;
      if !same {
        buffer.Part([], flag, TLV_MULTIVALUE, start, num, f, body);
        f' := SetFlag(f, TLV_MULTIVALUE);
        assert body + [] == body;
      }
      if total > 255 {
        buffer.Part([total / 256], flag, TLV_EXTVALUE, start, num, f', body);
        f', body' := SetFlag(f', TLV_EXTVALUE), body + [total / 256];
      }
      if total > 0 {
        buffer.Part([total % 256], flag, TLV_VALUE, start, num, f', body');
        assert body' + [total % 256] == body + LengthBytes(total);
      } else {
        assert body + [] == body;
      }
    }

    method WriteValues(g: Group, n: nat)
      requires Grouped(g, n)
      modifies buffer
      ensures buffer.out == old(buffer.out) + ValueBytes(g)
    {
      GroupFields(g, n);
      hide Grouped;
      ghost var start := buffer.out;
      if |g.values[0]| > 0 {
        if g.same {
          buffer.out := buffer.out + g.values[0];
        } else {
          var k := 0;
          while k < |g.values|
            invariant 0 <= k <= |g.values| && buffer.out == start + Concat(g.values[..k])
          {
            assert g.values[..k + 1][..k] == g.values[..k];
            buffer.out := buffer.out + g.values[k];
            k := k + 1;
          }
          assert g.values[..k] == g.values;
        }
      }
    }

    // _write_addresstlv
    method WriteTlv(kind: nat, n: nat)
      requires kind in current && Grouped(current[kind], n) && n < 256
      modifies buffer
      ensures buffer.out == old(buffer.out) + GroupBytes(current[kind], n)
    {
      var g := current[kind];
      GroupFields(g, n);
      hide Grouped, ValueBytes, IndexBytes, LengthBytes, Last, Area, RangeFlag, TypeFlag, ValuesFlag;
      hide LengthFlag, TlvFlags;
      ghost var start, num := buffer.out, g.kind / 256;
      var flag := |buffer.out| + 1;
      var total := |g.values[0]|;
      if !g.same {
        total := Area(total, |g.values|);
      }
      total := total % 65536;
      ghost var ext: seq<byte> := if g.kind % 256 > 0 then [g.kind % 256] else [];
      ghost var ix, le := IndexBytes(g.lo, Last(g), n), LengthBytes(total);
      ghost var f1, f2 := TypeFlag(g.kind), RangeFlag(TypeFlag(g.kind), g.lo, Last(g), n);
      WriteType(g.kind, flag, start);
      WriteIndex(g.lo, Last(g), n, flag, start, num, f1, ext);
      WriteLength(total, g.same, flag, start, num, f2, ext + ix);
      WriteValues(g, n);
      TlvFlagsSet(g, n);
      Regroup(start, [num, TlvFlags(g, n)], ext + ix + le, ValueBytes(g));
      FlattenTlv(start, [num, TlvFlags(g, n)], ext, ix, le, ValueBytes(g));
    }

    // The groups written (`done`) and those being collected cover exactly the TLVs seen so far:
    // all of the addresses before a, and the first j of address a.
    ghost predicate Inv(trees: seq<seq<Tlv>>, a: nat, j: nat, done: seq<Group>)
      requires Trees(trees) && a <= |trees| && (a < |trees| ==> j <= |trees[a]|)
      reads this
    {
      && Activated(active, current) && AllCollecting(current, trees, a) && AllGrouped(done, |trees|)
      && (a < |trees| && j < |trees[a]| ==> Behind(current, a, trees[a][j].kind))
      && Covers(done, active, current, trees, a, j)
    }

    // _write_addresstlvs, the body of the inner loop
    method Collect(trees: seq<seq<Tlv>>, a: nat, j: nat, ghost done: seq<Group>, ghost start: seq<byte>)
      returns (ghost done': seq<Group>)
      requires Trees(trees) && a < |trees| && j < |trees[a]| && Inv(trees, a, j, done)
      requires buffer.out == start + GroupsBytes(done, |trees|)
      modifies this, buffer
      ensures Inv(trees, a, j + 1, done')
      ensures buffer.out == start + GroupsBytes(done', |trees|)
    {
      hide Meaning, Expected, Only, Collected, GroupBytes, TlvTree, Lookup, Grouped;
      var t := trees[a][j];
      done' := done;
      TreeFacts(trees, a, j);
      if t.kind !in current {
        // the kind has a group now
        CoversNew(done, active, current, trees, a, j);
        AddedCollecting(current, trees, a, j, Single(t, a));
        active := active + [t.kind];
        current := current[t.kind := Single(t, a)];
      } else {
        var g := current[t.kind];
        GroupFields(g, |trees|);
        var last := g.values[|g.values| - 1];
        if Last(g) + 1 != a || |last| != |t.value| {
          // the group ends here and the next one begins
          WriteTlv(t.kind, |trees|);
          done' := done + [g];
          GroupsWritten(start, done, g, |trees|);
          CoversFlush(done, active, current, trees, a, j);
          AddedCollecting(current, trees, a, j, Single(t, a));
          current := current[t.kind := Single(t, a)];
        } else {
          LookupUnique(trees[a - 1], Tlv(t.kind, last));
          var sameValue := Lookup(trees[a - 1], t.kind) == Some(t.value);
          LongerGrouped(g, t.value, |trees|);
          CoversLonger(done, active, current, trees, a, j, sameValue);
          AddedCollecting(current, trees, a, j, Longer(g, t.value, sameValue));
          current := current[t.kind := Longer(g, t.value, sameValue)];
        }
      }
    }

    // The TLVs of one address.
    method CollectAddress(trees: seq<seq<Tlv>>, a: nat, ghost done: seq<Group>, ghost start: seq<byte>)
      returns (ghost done': seq<Group>)
      requires Trees(trees) && a < |trees| && Inv(trees, a, 0, done)
      requires buffer.out == start + GroupsBytes(done, |trees|)
      modifies this, buffer
      ensures Inv(trees, a + 1, 0, done')
      ensures buffer.out == start + GroupsBytes(done', |trees|)
    {
      done' := done;
      var j := 0;
      while j < |trees[a]|
        invariant 0 <= j <= |trees[a]| && Inv(trees, a, j, done')
        invariant buffer.out == start + GroupsBytes(done', |trees|)
      {
        hide Inv, Trees, GroupsBytes;
        done' := Collect(trees, a, j, done', start);
        j := j + 1;
      }
      hide Meaning, Expected, Collected, TlvTree, Grouped, GroupsBytes;
      NextAddress(done', active, current, trees, a);
    }

    // _write_addresstlvs: the groups written mean, for every address, exactly its TLVs.
    method WriteTlvs(trees: seq<seq<Tlv>>) returns (ghost groups: seq<Group>)
      requires Trees(trees)
      modifies this, buffer
      ensures AllGrouped(groups, |trees|) && buffer.out == old(buffer.out) + GroupsBytes(groups, |trees|)
      ensures forall i :: 0 <= i < |trees| ==> Meaning(groups, i) == multiset(trees[i])
    {
      ghost var start := buffer.out;
      current, active := map[], [];
      ghost var done: seq<Group> := [];
      CoversNothing(trees);
      assert GroupsBytes(done, |trees|) == [] && start + [] == start;
      var a := 0;
      while a < |trees|
        invariant 0 <= a <= |trees| && Inv(trees, a, 0, done)
        invariant buffer.out == start + GroupsBytes(done, |trees|)
      {
        hide Inv, Trees, GroupsBytes;
        done := CollectAddress(trees, a, done, start);
        a := a + 1;
      }
      hide Meaning, Expected, Collected, TlvTree, Grouped, GroupsBytes, Behind;
      CollectingGrouped(current, trees, a);
      groups := WriteActive(|trees|, done, start);
      CoversAll(done, active, current, trees, groups);
    }

    // Ends the groups that are still open.
    method WriteActive(n: nat, ghost done: seq<Group>, ghost start: seq<byte>) returns (ghost groups: seq<Group>)
      requires n < 256 && Activated(active, current) && AllGrouped(done, n)
      requires (forall t :: t in current ==> Grouped(current[t], n))
      requires buffer.out == start + GroupsBytes(done, n)
      modifies buffer
      ensures groups == done + Collected(active, current) && AllGrouped(groups, n)
      ensures buffer.out == start + GroupsBytes(groups, n)
    {
      hide Grouped, GroupsBytes, GroupBytes;
      groups := done;
      var k := 0;
      while k < |active|
        invariant 0 <= k <= |active|
        invariant groups == done + Collected(active, current)[..k] && AllGrouped(groups, n)
        invariant buffer.out == start + GroupsBytes(groups, n)
      {
        var kind := active[k];
        WriteTlv(kind, n);
        GroupsWritten(start, groups, current[kind], n);
        assert Collected(active, current)[..k + 1] == Collected(active, current)[..k] + [current[kind]];
        groups := groups + [current[kind]];
        k := k + 1;
      }
      assert Collected(active, current)[..k] == Collected(active, current);
    }
  }
}
