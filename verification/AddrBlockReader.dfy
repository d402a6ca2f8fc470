// The parser of one address block and the loop that assembles its addresses.
module AddrBlockReader {
  import opened Basics
  import opened Rfc5444
  import opened AddrBlock

  lemma OverlayAgain(t: seq<byte>, at: nat, s: seq<byte>, s': seq<byte>)
    requires at + |s| <= |t| && |s| == |s'|
    ensures Overlay(Overlay(t, at, s), at, s') == Overlay(t, at, s')
  {
  }

  lemma AssembledFrom(e: Entry, buf: seq<byte>, addrLen: nat, i: nat, at: nat, t: seq<byte>, plen: byte)
    requires Usable(e, buf, addrLen) && i < e.numAddr && at == e.midSrc + Area(e.midLen, i)
    requires at + e.midLen <= |buf| && t == Overlay(e.addr, e.midStart, buf[at..at + e.midLen])
    requires plen == if e.prefixes.Some? then buf[e.prefixes.value + i] else e.prefixLen
    ensures |t| == MAX_ADDRLEN && FromBinary(t[..addrLen], plen) == Assembled(e, buf, addrLen, i)
  {
    hide Overlay, FromBinary, Area;
  }

  // An address block entry; a new one is all zero.
  class AddrEntry {
    var numAddr: nat
    const addr: array<byte>
    var midStart: nat
    var midLen: nat
    var midSrc: nat
    var prefixes: Option<nat>
    var prefixLen: byte

    ghost predicate Valid() {
      addr.Length == MAX_ADDRLEN
    }

    // Nothing has been parsed into the entry.
    ghost predicate Clear()
      reads this
    {
      midStart == 0 && prefixes == None
    }

    ghost function Contents(): Entry
      reads this, addr
    {
      Entry(numAddr, addr[..], midStart, midLen, midSrc, prefixes, prefixLen)
    }

    constructor ()
      ensures Valid() && Clear() && fresh(addr)
    {
      numAddr, midStart, midLen, midSrc, prefixes, prefixLen := 0, 0, 0, 0, None, 0;
      addr := new byte[MAX_ADDRLEN](_ => 0);
    }

    // memcpy into the address template
    method Copy(at: nat, s: seq<byte>)
      requires at + |s| <= addr.Length
      modifies addr
      ensures addr[..] == Overlay(old(addr[..]), at, s)
    {
      forall k | 0 <= k < |s| {
        addr[at + k] := s[k];
      }
    }

    method Parse(buf: seq<byte>, p: nat, eob: nat, addrLen: nat) returns (result: Result, ptr: nat)
      requires Valid() && Clear() && eob <= |buf| && 1 <= addrLen <= MAX_ADDRLEN
      modifies this, addr
      ensures result == ParseBlock(buf, p, eob, addrLen).result && ptr == ParseBlock(buf, p, eob, addrLen).ptr
      ensures result == Okay ==> Contents() == ParseBlock(buf, p, eob, addrLen).entry
    {
      hide Overlay, Area, HasFlag;
      var (num, c) := GetU8(buf, Cursor(p, Okay), eob);
      numAddr := num;
      if numAddr == 0 {
        return EmptyAddrBlock, c.ptr;
      }
      var (flags, c') := GetU8(buf, c, eob);
      c := c';
      forall k | 0 <= k < addr.Length {
        addr[k] := 0;
      }
      assert addr[..] == Blank();
      midLen := addrLen;
      // head
      if HasFlag(flags, ADDR_HEAD) {
        var (head, c1) := GetU8(buf, c, eob);
        c, midStart := c1, head;
        if midStart < 1 || midStart >= MAX_ADDRLEN || midStart >= addrLen {
          return BadHeadLength, c.ptr;
        }
        if c.ptr + midStart > eob {
          return EndOfBuffer, c.ptr;
        }
        Copy(0, buf[c.ptr..c.ptr + midStart]);
        midLen := midLen - midStart;
        c := c.(ptr := c.ptr + midStart);
      }
      result, ptr := ParseRest(buf, c, eob, addrLen, flags);
    }

    // The parts behind the head.
    method ParseRest(buf: seq<byte>, start: Cursor, eob: nat, addrLen: nat, flags: byte)
      returns (result: Result, ptr: nat)
      requires Valid() && eob <= |buf| && 1 <= addrLen <= MAX_ADDRLEN && prefixes == None
      requires midStart < addrLen && midLen == addrLen - midStart
      modifies this, addr
      ensures var parsed := ParseTail(buf, start, eob, addrLen, old(numAddr), flags, old(addr[..]), old(midStart));
        result == parsed.result && ptr == parsed.ptr && (result == Okay ==> Contents() == parsed.entry)
    {
      hide Overlay, Area, HasFlag;
      var c := start;
      // tail
      var full, zero := HasFlag(flags, ADDR_FULLTAIL), HasFlag(flags, ADDR_ZEROTAIL);
      if zero && !full {
        var (tail, c1) := GetU8(buf, c, eob);
        c, midLen := c1, (midLen - tail) % 256;
      } else if full && !zero {
        var (tail, c1) := GetU8(buf, c, eob);
        c := c1;
        if tail < 1 || tail >= MAX_ADDRLEN || tail >= addrLen {
          return BadTailLength, c.ptr;
        }
        if c.ptr + tail > eob {
          return EndOfBuffer, c.ptr;
        }
        Copy(addrLen - tail, buf[c.ptr..c.ptr + tail]);
        midLen := (midLen - tail) % 256;
        c := c.(ptr := c.ptr + tail);
      } else if full && zero {
        return BadTailFlags, c.ptr;
      }
      result, ptr := ParseMids(buf, c, eob, addrLen, flags);
    }

    // The middle parts and the prefix lengths.
    method ParseMids(buf: seq<byte>, start: Cursor, eob: nat, addrLen: nat, flags: byte)
      returns (result: Result, ptr: nat)
      requires Valid() && eob <= |buf| && 1 <= addrLen <= MAX_ADDRLEN && prefixes == None
      modifies this
      ensures
        var parsed := ParseMid(buf, start, eob, addrLen, old(numAddr), flags, addr[..], old(midStart), old(midLen));
        result == parsed.result && ptr == parsed.ptr && (result == Okay ==> Contents() == parsed.entry)
    {
      hide HasFlag;
      midSrc := start.ptr;
      ptr := start.ptr + Area(midLen, numAddr);
      if ptr > eob {
        return EndOfBuffer, ptr;
      }
      hide Area;
      var single, multi := HasFlag(flags, ADDR_SINGLEPLEN), HasFlag(flags, ADDR_MULTIPLEN);
      prefixLen := 8 * addrLen;
      if single && multi {
        return BadPrefixFlags, ptr;
      } else if single {
        if ptr < eob {
          prefixLen := buf[ptr];
        }
        ptr := ptr + 1;
      } else if multi {
        prefixes := Some(ptr);
        ptr := ptr + numAddr;
      }
      if ptr > eob {
        return EndOfBuffer, ptr;
      }
      result := start.result;
    }

    // The entry is e, with the middle part of some address in the template.
    ghost predicate Filled(e: Entry)
      reads this, addr
    {
      && Contents() == e.(addr := addr[..]) && e.midStart + e.midLen <= |e.addr|
      && |addr[..]| == |e.addr| && addr[..] == Overlay(e.addr, midStart, addr[midStart..midStart + midLen])
    }

    // The i-th address, assembled in the template.
    method AssembleOne(buf: seq<byte>, addrLen: nat, i: nat, ghost e: Entry) returns (a: Address)
      requires Valid() && Usable(e, buf, addrLen) && i < e.numAddr && Filled(e)
      modifies addr
      ensures Filled(e) && a == Assembled(e, buf, addrLen, i)
    {
      hide Area;
      MidIndex(midLen, numAddr, i);
      var at := midSrc + Area(midLen, i);
      OverlayAgain(e.addr, midStart, addr[midStart..midStart + midLen], buf[at..at + midLen]);
      Copy(midStart, buf[at..at + midLen]);
      assert addr[midStart..midStart + midLen] == buf[at..at + midLen];
      hide Overlay, Assembled, FromBinary;
      var plen := if prefixes.Some? then buf[prefixes.value + i] else prefixLen;
      AssembledFrom(e, buf, addrLen, i, at, addr[..], plen);
      a := FromBinary(addr[..addrLen], plen);
    }
  }
}
