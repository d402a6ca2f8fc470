// The loops that write an address block into the message buffer and read it back.
module AddrBlockIo {
  import opened Basics
  import opened Rfc5444
  import opened AddrBlock

  // Tail of t bytes equal for one address and the first one.
  predicate TailEqual(a: Address, first: Address, addrLen: nat, t: nat)
    requires |a.bytes| == |first.bytes| == addrLen && t <= addrLen
  {
    forall k :: addrLen - t <= k < addrLen ==> a.bytes[k] == first.bytes[k]
  }

  lemma TailEqualSlices(a: Address, first: Address, addrLen: nat, t: nat)
    requires |a.bytes| == |first.bytes| == addrLen && t <= addrLen
    ensures TailEqual(a, first, addrLen, t) <==> a.bytes[addrLen - t..] == first.bytes[addrLen - t..]
  {
    if a.bytes[addrLen - t..] == first.bytes[addrLen - t..] {
      forall k | addrLen - t <= k < addrLen
        ensures a.bytes[k] == first.bytes[k]
      {
        assert a.bytes[addrLen - t..][k - (addrLen - t)] == first.bytes[addrLen - t..][k - (addrLen - t)];
      }
    }
  }

  // t is the longest tail up to `limit` that the first n addresses share.
  predicate TailSoFar(addrs: seq<Address>, addrLen: nat, limit: nat, t: nat, n: nat)
    requires Wide(addrs, addrLen) && addrs != [] && t <= limit <= addrLen && n <= |addrs|
  {
    && (forall i :: 0 <= i < n ==> TailEqual(addrs[i], addrs[0], addrLen, t))
    && (t < limit ==> exists i :: 0 <= i < n && addrs[i].bytes[addrLen - t - 1] != addrs[0].bytes[addrLen - t - 1])
  }

  lemma TailFound(addrs: seq<Address>, addrLen: nat, limit: nat, t: nat)
    requires Wide(addrs, addrLen) && addrs != [] && t <= limit <= addrLen
    requires TailSoFar(addrs, addrLen, limit, t, |addrs|)
    ensures t == LongestTail(addrs, addrLen, limit)
  {
    forall i | 0 <= i < |addrs|
      ensures addrs[i].bytes[addrLen - t..] == addrs[0].bytes[addrLen - t..]
    {
      TailEqualSlices(addrs[i], addrs[0], addrLen, t);
    }
    assert SameTail(addrs, addrLen, t);
    forall u | t < u <= limit
      ensures !SameTail(addrs, addrLen, u)
    {
      var i :| 0 <= i < |addrs| && addrs[i].bytes[addrLen - t - 1] != addrs[0].bytes[addrLen - t - 1];
      TailEqualSlices(addrs[i], addrs[0], addrLen, u);
    }
  }

  // The flags as the writer sets them, one part at a time.
  function HeadFlag(l: Layout): byte {
    if l.head > 0 then SetFlag(0, ADDR_HEAD) else 0
  }

  function TailFlag(f: byte, l: Layout): byte {
    if l.tail == 0 then f else SetFlag(f, if l.zeroTail then ADDR_ZEROTAIL else ADDR_FULLTAIL)
  }

  function PrefixFlag(f: byte, l: Layout): byte {
    if l.multi then SetFlag(f, ADDR_MULTIPLEN) else if l.single then SetFlag(f, ADDR_SINGLEPLEN) else f
  }

  lemma FlagsSet(l: Layout)
    ensures PrefixFlag(TailFlag(HeadFlag(l), l), l) == Flags(l)
  {
  }

  lemma Regroup(s: seq<byte>, a: seq<byte>, b: seq<byte>, c: seq<byte>)
    ensures s + a + b + c == s + a + (b + c)
  {
  }

  lemma Flatten(s: seq<byte>, a: seq<byte>, h: seq<byte>, t: seq<byte>, m: seq<byte>, n: seq<byte>)
    ensures s + a + (h + t + m + n) == s + (a + h + t + m + n)
  {
  }

  class MessageBuffer {
    var out: seq<byte>

    constructor ()
      ensures out == []
    {
      out := [];
    }

    // The tail all addresses of the block share, at most `limit` bytes.
    static method TailLength(addrs: seq<Address>, addrLen: nat, limit: nat) returns (tail: nat)
      requires Wide(addrs, addrLen) && addrs != [] && limit <= addrLen
      ensures tail == LongestTail(addrs, addrLen, limit)
    {
      tail := limit;
      var i := 0;
      while i < |addrs| && tail != 0
        invariant 0 <= i <= |addrs| && tail <= limit
        invariant TailSoFar(addrs, addrLen, limit, tail, i)
      {
        var t := 1;
        ghost var before := tail;
        while t <= tail
          invariant 1 <= t <= tail + 1 && tail == before
          invariant TailEqual(addrs[i], addrs[0], addrLen, t - 1)
        {
          if addrs[0].bytes[addrLen - t] != addrs[i].bytes[addrLen - t] {
            tail := t - 1;
            break;
          }
          t := t + 1;
        }
        i := i + 1;
      }
      assert tail == 0 ==> forall k :: 0 <= k < |addrs| ==> TailEqual(addrs[k], addrs[0], addrLen, 0);
      TailFound(addrs, addrLen, limit, tail);
    }

    // *flag |= mask
    method Mark(flag: nat, mask: nat)
      requires flag < |out| && IsMask(mask)
      modifies this
      ensures out == old(out)[flag := SetFlag(old(out)[flag], mask)]
    {
      out := out[flag := SetFlag(out[flag], mask)];
    }

    // Append and set a flag bit of the block that starts at `start`.
    method Part(bytes: seq<byte>, flag: nat, mask: nat, ghost start: seq<byte>, ghost num: byte, ghost f: byte,
                ghost body: seq<byte>)
      requires out == start + [num, f] + body && flag == |start| + 1 && IsMask(mask)
      modifies this
      ensures out == start + [num, SetFlag(f, mask)] + (body + bytes)
    {
      Mark(flag, mask);
      assert out == start + [num, SetFlag(f, mask)] + body;
      out := out + bytes;
    }

    // The middle part of every address.
    method WriteMids(addrs: seq<Address>, from: nat, to: nat)
      requires from <= to && forall i :: 0 <= i < |addrs| ==> to <= |addrs[i].bytes|
      modifies this
      ensures out == old(out) + Mids(addrs, from, to)
    {
      var i := 0;
      while i < |addrs|
        invariant 0 <= i <= |addrs|
        invariant out == old(out) + Mids(addrs[..i], from, to)
      {
        out := out + addrs[i].bytes[from..to];
        assert addrs[..i + 1][..i] == addrs[..i];
        i := i + 1;
      }
      assert addrs[..i] == addrs;
    }

    // The prefix length of every address.
    method WritePlens(addrs: seq<Address>)
      modifies this
      ensures out == old(out) + Plens(addrs)
    {
      var i := 0;
      while i < |addrs|
        invariant 0 <= i <= |addrs|
        invariant out == old(out) + Plens(addrs)[..i]
      {
        out := out + [addrs[i].plen];
        i := i + 1;
      }
      assert Plens(addrs)[..i] == Plens(addrs);
    }

    // The address block of _write_addresses, without the address TLVs.
    method WriteBlock(addrs: seq<Address>, addrLen: nat, headLen: nat, multi: bool)
      requires Block(addrs, addrLen) && headLen < addrLen
      modifies this
      ensures out == old(out) + BlockBytes(addrs, addrLen, headLen, multi)
    {
      var head, tail, zeroTail := 0, 0, false;
      if |addrs| > 1 {
        // an address on its own is written in full
        head := headLen;
        tail := TailLength(addrs, addrLen, addrLen - head - 1);
        zeroTail := ZeroTail(addrs[0].bytes, tail);
      }
      ghost var l := LayoutOf(addrs, addrLen, headLen, multi);
      assert head == l.head && tail == l.tail && zeroTail == l.zeroTail && multi == l.multi;
      WriteParts(addrs, addrLen, head, tail, zeroTail, multi, l);
    }

    method WriteParts(addrs: seq<Address>, addrLen: nat, head: nat, tail: nat, zeroTail: bool, multi: bool,
                      ghost l: Layout)
      requires 0 < |addrs| < 256 && Wide(addrs, addrLen) && addrLen <= MAX_ADDRLEN && head + tail < addrLen
      requires l == Layout(head, tail, zeroTail, multi, addrs[0].plen != addrLen * 8)
      modifies this
      ensures out == old(out) + PartBytes(addrs, addrLen, l)
    {
      hide Mids, Flags, HeadFlag, TailFlag, PrefixFlag, HeadPart, TailPart, PlenPart;
      ghost var start, num: byte := out, |addrs|;
      ghost var h, t, m := HeadPart(addrs[0], l), TailPart(addrs[0], l), Mids(addrs, head, addrLen - tail);
      ghost var fh, ft := HeadFlag(l), TailFlag(HeadFlag(l), l);
      var flag := |out| + 1;
      out := out + [|addrs|, 0];
      WriteHead(addrs[0], head, flag, start, num, l);
      WriteTail(addrs[0], tail, zeroTail, flag, start, num, fh, h, l);
      WriteMids(addrs, head, addrLen - tail);
      Regroup(start, [num, ft], h + t, m);
      WritePrefixes(addrs, addrLen, multi, flag, start, num, ft, h + t + m, l);
      FlagsSet(l);
      Flatten(start, [num, Flags(l)], h, t, m, PlenPart(addrs, l));
    }

    method WriteHead(first: Address, head: nat, flag: nat, ghost start: seq<byte>, ghost num: byte, ghost l: Layout)
      requires head == l.head <= |first.bytes| && l.head < 256
      requires out == start + [num, 0] && flag == |start| + 1
      modifies this
      ensures out == start + [num, HeadFlag(l)] + HeadPart(first, l)
    {
      hide SetFlag;
      if head > 0 {
        assert start + [num, 0] == start + [num, 0] + [];
        Part([head] + first.bytes[..head], flag, ADDR_HEAD, start, num, 0, []);
        assert [] + HeadPart(first, l) == HeadPart(first, l);
      }
    }

    method WriteTail(first: Address, tail: nat, zeroTail: bool, flag: nat, ghost start: seq<byte>, ghost num: byte,
                     ghost f: byte, ghost body: seq<byte>, ghost l: Layout)
      requires tail == l.tail <= |first.bytes| && l.tail < 256 && zeroTail == l.zeroTail
      requires out == start + [num, f] + body && flag == |start| + 1
      modifies this
      ensures out == start + [num, TailFlag(f, l)] + (body + TailPart(first, l))
    {
      hide SetFlag;
      if tail == 0 {
        assert body + [] == body;
      } else if zeroTail {
        Part([tail] + [], flag, ADDR_ZEROTAIL, start, num, f, body);
      } else {
        Part([tail] + first.bytes[|first.bytes| - tail..], flag, ADDR_FULLTAIL, start, num, f, body);
      }
    }

    // The prefix length part.
    method WritePrefixes(addrs: seq<Address>, addrLen: nat, multi: bool, flag: nat, ghost start: seq<byte>,
                         ghost num: byte, ghost f: byte, ghost body: seq<byte>, ghost l: Layout)
      requires addrs != [] && l.multi == multi && l.single == (addrs[0].plen != addrLen * 8)
      requires out == start + [num, f] + body && flag == |start| + 1
      modifies this
      ensures out == start + [num, PrefixFlag(f, l)] + (body + PlenPart(addrs, l))
    {
      hide SetFlag;
      if multi {
        Part([], flag, ADDR_MULTIPLEN, start, num, f, body);
        WritePlens(addrs);
        assert out == start + [num, PrefixFlag(f, l)] + (body + PlenPart(addrs, l));
      } else if addrs[0].plen != addrLen * 8 {
        Part([addrs[0].plen], flag, ADDR_SINGLEPLEN, start, num, f, body);
      } else {
        assert body + [] == body;
      }
    }

    // True when the tail is not empty and all of its bytes are zero.
    static method ZeroTail(bytes: seq<byte>, tail: nat) returns (zero: bool)
      requires tail <= |bytes|
      ensures zero <==> tail > 0 && AllZero(bytes[|bytes| - tail..])
    {
      zero := tail > 0;
      var t := 0;
      while zero && t < tail
        invariant 0 <= t <= tail
        invariant zero ==> tail > 0 && forall k :: |bytes| - t <= k < |bytes| ==> bytes[k] == 0
        invariant !zero ==> tail == 0 || !AllZero(bytes[|bytes| - tail..])
      {
        if bytes[|bytes| - t - 1] != 0 {
          assert bytes[|bytes| - tail..][tail - t - 1] != 0;
          zero := false;
        }
        t := t + 1;
      }
    }
  }
}
