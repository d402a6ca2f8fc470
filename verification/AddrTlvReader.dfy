// Reading a TLV block and handing its TLVs to the consumers of an address.
module AddrTlvReader {
  import opened Basics
  import opened Rfc5444
  import opened AddrBlock
  import opened AddrTlv

  datatype ParsedBlock = ParsedBlock(result: Result, entries: seq<TlvEntry>, ptr: nat)

  lemma ParseAdvances(buf: seq<byte>, p: nat, eob: nat, n: byte)
    requires eob <= |buf|
    ensures var r := ParseTlv(buf, p, eob, n);
      r.result == Okay ==> p < r.ptr <= eob
  {
    hide HasFlag;
  }

  // The TLVs of _parse_tlvblock from p up to `end`.
  function ParseTlvs(buf: seq<byte>, p: nat, end: nat, eob: nat, n: byte): ParsedBlock
    requires end <= eob <= |buf|
    decreases eob - p
  {
    if p >= end then ParsedBlock(Okay, [], p)
    else
      var r := ParseTlv(buf, p, eob, n);
      if r.result != Okay then ParsedBlock(r.result, [], eob)
      else
        ParseAdvances(buf, p, eob, n);
        var rest := ParseTlvs(buf, r.ptr, end, eob, n);
        if rest.result != Okay then ParsedBlock(rest.result, [], eob)
        else ParsedBlock(Okay, [r.entry] + rest.entries, rest.ptr)
  }

  // _parse_tlvblock
  function ParseTlvBlock(buf: seq<byte>, p: nat, eob: nat, n: byte): ParsedBlock
    requires eob <= |buf|
  {
    var (length, c) := GetU16(buf, Cursor(p, Okay), eob);
    if p + 2 + length > eob then ParsedBlock(EndOfBuffer, [], eob)
    else ParseTlvs(buf, c.ptr, p + 2 + length, eob, n)
  }

  lemma Shifted(a: seq<TlvEntry>, e: TlvEntry, b: seq<TlvEntry>)
    ensures a + ([e] + b) == a + [e] + b
  {
  }

  // The loop of _parse_tlvblock; the entries are collected in the order in which they stand in the buffer.
  method ReadTlvBlock(buf: seq<byte>, p: nat, eob: nat, n: byte)
    returns (result: Result, entries: seq<TlvEntry>, ptr: nat)
    requires eob <= |buf|
    ensures ParsedBlock(result, entries, ptr) == ParseTlvBlock(buf, p, eob, n)
  {
    hide ParseTlv;
    var (length, c) := GetU16(buf, Cursor(p, Okay), eob);
    var end := p + 2 + length;
    result, entries, ptr := Okay, [], c.ptr;
    if end > eob {
      return EndOfBuffer, [], eob;
    }
    ghost var whole := ParseTlvs(buf, ptr, end, eob, n);
    while ptr < end
      invariant var rest := ParseTlvs(buf, ptr, end, eob, n);
        if rest.result == Okay then whole == ParsedBlock(Okay, entries + rest.entries, rest.ptr)
        else whole == ParsedBlock(rest.result, [], eob)
      decreases eob - ptr
    {
      var r := ParseTlv(buf, ptr, eob, n);
      if r.result != Okay {
        return r.result, [], eob;
      }
      ParseAdvances(buf, ptr, eob, n);
      Shifted(entries, r.entry, ParseTlvs(buf, r.ptr, end, eob, n).entries);
      entries := entries + [r.entry];
      ptr := r.ptr;
    }
    assert entries + [] == entries;
  }

  // What one entry gives to address i.
  function HandedOne(e: TlvEntry, buf: seq<byte>, i: nat): multiset<Tlv> {
    if Handed(e, buf, i) then multiset{HandedTlv(e, buf, i)} else multiset{}
  }

  // The TLVs that the entries of a block give to address i (_schedule_tlvblock).
  function HandedAll(entries: seq<TlvEntry>, buf: seq<byte>, i: nat): multiset<Tlv> {
    if entries == [] then multiset{}
    else HandedOne(entries[0], buf, i) + HandedAll(entries[1..], buf, i)
  }

  lemma HandedStep(entries: seq<TlvEntry>, buf: seq<byte>, i: nat, k: nat, calls: seq<Tlv>, more: seq<Tlv>)
    requires k < |entries| && HandedOne(entries[k], buf, i) == multiset(more)
    ensures
      var rest := HandedAll(entries[k + 1..], buf, i);
      multiset(calls) + HandedAll(entries[k..], buf, i) == multiset(calls + more) + rest
  {
    assert entries[k..][0] == entries[k] && entries[k..][1..] == entries[k + 1..];
  }

  method ScheduleTlv(e: TlvEntry, buf: seq<byte>, i: nat) returns (calls: seq<Tlv>)
    requires e.index1 <= i <= e.index2 ==> Handed(e, buf, i)
    ensures multiset(calls) == HandedOne(e, buf, i)
  {
    hide Area;
    calls := [];
    if e.index1 <= i <= e.index2 {
      var offset := if e.multi then Area(e.length, i - e.index1) else 0;
      calls := [Tlv(e.kind, buf[e.value + offset..e.value + offset + e.length])];
    }
  }

  // The TLV callbacks of _schedule_tlvblock for address i.
  method ScheduleTlvs(entries: seq<TlvEntry>, buf: seq<byte>, i: nat) returns (calls: seq<Tlv>)
    requires
      forall k :: 0 <= k < |entries| && entries[k].index1 <= i <= entries[k].index2 ==> Handed(entries[k], buf, i)
    ensures multiset(calls) == HandedAll(entries, buf, i)
  {
    calls := [];
    var k := 0;
    assert entries[0..] == entries;
    while k < |entries|
      invariant 0 <= k <= |entries|
      invariant multiset(calls) + HandedAll(entries[k..], buf, i) == HandedAll(entries, buf, i)
    {
      hide HandedAll, HandedOne, Handed;
      var more := ScheduleTlv(entries[k], buf, i);
      HandedStep(entries, buf, i, k, calls, more);
      calls := calls + more;
      k := k + 1;
    }
  }

  // ---- round trip of a TLV block ----

  // The two bytes of the length field; longer blocks are cut off.
  function LengthField(n: nat): seq<byte> {
    [n / 256 % 256, n % 256]
  }

  lemma FieldBytes(n: nat)
    ensures |LengthField(n)| == 2
  {
  }

  lemma {:induction false} GroupsAt(groups: seq<Group>, n: nat, k: nat)
    requires n < 256 && AllGrouped(groups, n) && k < |groups|
    ensures At(GroupsBytes(groups, n), |GroupsBytes(groups[..k], n)|, GroupBytes(groups[k], n))
    ensures |GroupsBytes(groups[..k + 1], n)| == |GroupsBytes(groups[..k], n)| + |GroupBytes(groups[k], n)|
    ensures |GroupsBytes(groups[..k + 1], n)| <= |GroupsBytes(groups, n)|
  {
    hide GroupBytes, Grouped, At;
    var l := |groups| - 1;
    assert groups[..k + 1][..k] == groups[..k];
    var rest, last := GroupsBytes(groups[..l], n), GroupBytes(groups[l], n);
    if k < l {
      GroupsAt(groups[..l], n, k);
      assert groups[..l][..k] == groups[..k] && groups[..l][..k + 1] == groups[..k + 1];
      AtLeft(rest, |GroupsBytes(groups[..k], n)|, GroupBytes(groups[k], n), last);
    } else {
      assert groups[..l + 1] == groups;
      AtEnd(rest, last);
    }
  }

  // Entry by entry, the TLVs read mean what was written.
  predicate MatchesAll(entries: seq<TlvEntry>, buf: seq<byte>, groups: seq<Group>) {
    |entries| == |groups| && forall k :: 0 <= k < |groups| ==> Matches(entries[k], buf, groups[k])
  }

  lemma GroupLength(g: Group, n: byte)
    requires Grouped(g, n)
    ensures |ValueBytes(g)| <= |GroupBytes(g, n)|
  {
    hide ValueBytes;
  }

  lemma {:induction false} ReadGroups(buf: seq<byte>, q: nat, end: nat, eob: nat, groups: seq<Group>, n: byte, k: nat)
    requires AllGrouped(groups, n) && At(buf, q, GroupsBytes(groups, n)) && k <= |groups|
    requires end == q + |GroupsBytes(groups, n)| && end <= eob <= |buf| && |GroupsBytes(groups, n)| < 65536
    ensures var r := ParseTlvs(buf, q + |GroupsBytes(groups[..k], n)|, end, eob, n);
      k <= |groups| && r.result == Okay && r.ptr == end && MatchesAll(r.entries, buf, groups[k..])
    decreases |groups| - k
  {
    hide At, GroupBytes, Grouped, Matches, ParseTlv, GroupsBytes;
    var p := q + |GroupsBytes(groups[..k], n)|;
    if k == |groups| {
      assert groups[..k] == groups && groups[k..] == [];
    } else {
      GroupsAt(groups, n, k);
      AtWithin(buf, q, GroupsBytes(groups, n), |GroupsBytes(groups[..k], n)|, GroupBytes(groups[k], n));
      GroupLength(groups[k], n);
      RoundTripGroup(buf, p, eob, groups[k], n);
      ParseAdvances(buf, p, eob, n);
      ReadGroups(buf, q, end, eob, groups, n, k + 1);
      assert groups[k..][1..] == groups[k + 1..] && groups[k..][0] == groups[k];
    }
  }

  lemma MatchHands(e: TlvEntry, buf: seq<byte>, g: Group, n: nat, i: nat)
    requires Matches(e, buf, g) && Grouped(g, n)
    ensures HandedOne(e, buf, i) == Hit(g, i)
  {
  }

  lemma MeaningFront(groups: seq<Group>, i: nat)
    requires groups != []
    ensures Meaning(groups, i) == Hit(groups[0], i) + Meaning(groups[1..], i)
  {
    hide Hit;
    assert groups == [groups[0]] + groups[1..] && [groups[0]][..0] == [];
    MeaningConcat([groups[0]], groups[1..], i);
  }

  lemma {:induction false} MatchesMean(entries: seq<TlvEntry>, buf: seq<byte>, groups: seq<Group>, n: nat, i: nat)
    requires MatchesAll(entries, buf, groups) && AllGrouped(groups, n)
    ensures HandedAll(entries, buf, i) == Meaning(groups, i)
  {
    hide Matches, Grouped, Hit, HandedOne;
    if groups != [] {
      MatchHands(entries[0], buf, groups[0], n, i);
      MeaningFront(groups, i);
      MatchesMean(entries[1..], buf, groups[1..], n, i);
    }
  }

  // Round trip of a TLV block: every address is handed exactly the TLVs that the groups mean.
  lemma RoundTripTlvs(buf: seq<byte>, p: nat, eob: nat, groups: seq<Group>, n: byte)
    requires AllGrouped(groups, n) && |GroupsBytes(groups, n)| < 65536
    requires At(buf, p, LengthField(|GroupsBytes(groups, n)|) + GroupsBytes(groups, n))
    requires p + 2 + |GroupsBytes(groups, n)| <= eob <= |buf|
    ensures var r := ParseTlvBlock(buf, p, eob, n);
      && r.result == Okay && r.ptr == p + 2 + |GroupsBytes(groups, n)| && MatchesAll(r.entries, buf, groups)
      && forall i :: HandedAll(r.entries, buf, i) == Meaning(groups, i)
  {
    hide At, GroupsBytes, HandedAll, Meaning, ParseTlvs, MatchesAll, Grouped;
    var body, field := GroupsBytes(groups, n), LengthField(|GroupsBytes(groups, n)|);
    AtSplit(buf, p, field, body);
    AtIndex(buf, p, field, 0);
    AtIndex(buf, p, field, 1);
    NoGroups(groups, n);
    ReadGroups(buf, p + 2, p + 2 + |body|, eob, groups, n, 0);
    assert groups[0..] == groups;
    var r := ParseTlvBlock(buf, p, eob, n);
    forall i: nat
      ensures HandedAll(r.entries, buf, i) == Meaning(groups, i)
    {
      MatchesMean(r.entries, buf, groups, n, i);
    }
  }

  lemma NoGroups(groups: seq<Group>, n: byte)
    ensures GroupsBytes(groups[..0], n) == []
  {
  }
}
