// Address blocks: the bytes written for a block of addresses and the parser for them.
module AddrBlock {
  import opened Basics
  import opened Rfc5444

  // ---- what is written ----

  // Every address has n bytes.
  predicate Wide(addrs: seq<Address>, n: nat) {
    forall i :: 0 <= i < |addrs| ==> |addrs[i].bytes| == n
  }

  predicate SameTail(addrs: seq<Address>, addrLen: nat, tail: nat)
    requires Wide(addrs, addrLen)
    requires addrs != [] && tail <= addrLen
  {
    forall i :: 0 <= i < |addrs| ==> addrs[i].bytes[addrLen - tail..] == addrs[0].bytes[addrLen - tail..]
  }

  predicate SameHead(addrs: seq<Address>, addrLen: nat, head: nat)
    requires Wide(addrs, addrLen)
    requires addrs != [] && head <= addrLen
  {
    forall i :: 0 <= i < |addrs| ==> addrs[i].bytes[..head] == addrs[0].bytes[..head]
  }

  // The longest tail, up to `limit` bytes, that all addresses share.
  function LongestTail(addrs: seq<Address>, addrLen: nat, limit: nat): (t: nat)
    requires Wide(addrs, addrLen)
    requires addrs != [] && limit <= addrLen
    ensures t <= limit && SameTail(addrs, addrLen, t)
    ensures forall u :: t < u <= limit ==> !SameTail(addrs, addrLen, u)
  {
    if limit == 0 || SameTail(addrs, addrLen, limit) then limit else LongestTail(addrs, addrLen, limit - 1)
  }

  predicate AllZero(s: seq<byte>) {
    forall i :: 0 <= i < |s| ==> s[i] == 0
  }

  function Mids(addrs: seq<Address>, from: nat, to: nat): seq<byte>
    requires from <= to && forall i :: 0 <= i < |addrs| ==> to <= |addrs[i].bytes|
  {
    if addrs == [] then []
    else Mids(addrs[..|addrs| - 1], from, to) + addrs[|addrs| - 1].bytes[from..to]
  }

  function Plens(addrs: seq<Address>): (p: seq<byte>)
    ensures |p| == |addrs| && forall i :: 0 <= i < |p| ==> p[i] == addrs[i].plen
  {
    seq(|addrs|, i requires 0 <= i < |addrs| => addrs[i].plen)
  }

  // Bytes taken by n middle parts of m bytes.
  function Area(m: nat, n: nat): nat {
    m * n
  }

  // The parts of a block on the wire.
  datatype Layout = Layout(head: nat, tail: nat, zeroTail: bool, multi: bool, single: bool)

  function Flags(l: Layout): byte {
    (if l.head > 0 then ADDR_HEAD else 0)
    + (if l.tail == 0 then 0 else if l.zeroTail then ADDR_ZEROTAIL else ADDR_FULLTAIL)
    + (if l.multi then ADDR_MULTIPLEN else if l.single then ADDR_SINGLEPLEN else 0)
  }

  predicate Block(addrs: seq<Address>, addrLen: nat) {
    1 <= |addrs| <= 255 && 1 <= addrLen <= MAX_ADDRLEN
    && Wide(addrs, addrLen) && forall i :: 0 <= i < |addrs| ==> addrs[i].plen <= 8 * addrLen
  }

  function LayoutOf(addrs: seq<Address>, addrLen: nat, headLen: nat, multi: bool): (l: Layout)
    requires Block(addrs, addrLen) && headLen < addrLen
    ensures l.head + l.tail < addrLen
  {
    var head := if |addrs| == 1 then 0 else headLen;
    var tail := if |addrs| == 1 then 0 else LongestTail(addrs, addrLen, addrLen - head - 1);
    Layout(head, tail, tail > 0 && AllZero(addrs[0].bytes[addrLen - tail..]), multi, addrs[0].plen != addrLen * 8)
  }

  function HeadPart(first: Address, l: Layout): seq<byte>
    requires l.head <= |first.bytes| && l.head < 256
  {
    if l.head > 0 then [l.head] + first.bytes[..l.head] else []
  }

  function TailPart(first: Address, l: Layout): seq<byte>
    requires l.tail <= |first.bytes| && l.tail < 256
  {
    if l.tail == 0 then []
    else [l.tail] + (if l.zeroTail then [] else first.bytes[|first.bytes| - l.tail..])
  }

  function PlenPart(addrs: seq<Address>, l: Layout): seq<byte>
    requires addrs != []
  {
    if l.multi then Plens(addrs) else if l.single then [addrs[0].plen] else []
  }

  function Front(num: byte, flags: byte): seq<byte> {
    [num, flags]
  }

  function PartBytes(addrs: seq<Address>, addrLen: nat, l: Layout): seq<byte>
    requires 0 < |addrs| < 256 && Wide(addrs, addrLen) && l.head + l.tail < addrLen <= MAX_ADDRLEN
  {
    Front(|addrs|, Flags(l)) + HeadPart(addrs[0], l) + TailPart(addrs[0], l)
    + Mids(addrs, l.head, addrLen - l.tail) + PlenPart(addrs, l)
  }

  function BlockBytes(addrs: seq<Address>, addrLen: nat, headLen: nat, multi: bool): seq<byte>
    requires Block(addrs, addrLen) && headLen < addrLen
  {
    PartBytes(addrs, addrLen, LayoutOf(addrs, addrLen, headLen, multi))
  }

  // ---- what is read ----

  datatype Entry = Entry(
    numAddr: nat, addr: seq<byte>, midStart: nat, midLen: nat, midSrc: nat, prefixes: Option<nat>, prefixLen: byte)

  datatype Parsed = Parsed(result: Result, entry: Entry, ptr: nat)

  const NO_ENTRY := Entry(0, [], 0, 0, 0, None, 0)

  // memcpy into the address template
  function Overlay(t: seq<byte>, at: nat, s: seq<byte>): (r: seq<byte>)
    requires at + |s| <= |t|
    ensures |r| == |t|
  {
    t[..at] + s + t[at + |s|..]
  }

  function Blank(): (t: seq<byte>)
    ensures |t| == MAX_ADDRLEN
  {
    seq(MAX_ADDRLEN, _ => 0)
  }

  // _parse_addrblock
  function ParseBlock(buf: seq<byte>, p: nat, eob: nat, addrLen: nat): Parsed
    requires eob <= |buf| && 1 <= addrLen <= MAX_ADDRLEN
  {
    var (num, c1) := GetU8(buf, Cursor(p, Okay), eob);
    if num == 0 then Parsed(EmptyAddrBlock, NO_ENTRY, c1.ptr)
    else
      var (flags, c2) := GetU8(buf, c1, eob);
      ParseHead(buf, c2, eob, addrLen, num, flags)
  }

  function ParseHead(buf: seq<byte>, c: Cursor, eob: nat, addrLen: nat, num: nat, flags: byte): Parsed
    requires eob <= |buf| && 1 <= addrLen <= MAX_ADDRLEN
  {
    if !HasFlag(flags, ADDR_HEAD) then ParseTail(buf, c, eob, addrLen, num, flags, Blank(), 0)
    else
      var (head, c1) := GetU8(buf, c, eob);
      if head < 1 || head >= MAX_ADDRLEN || head >= addrLen then Parsed(BadHeadLength, NO_ENTRY, c1.ptr)
      else if c1.ptr + head > eob then Parsed(EndOfBuffer, NO_ENTRY, c1.ptr)
      else
        var addr := Overlay(Blank(), 0, buf[c1.ptr..c1.ptr + head]);
        ParseTail(buf, Cursor(c1.ptr + head, c1.result), eob, addrLen, num, flags, addr, head)
  }

  function ParseTail(buf: seq<byte>, c: Cursor, eob: nat, addrLen: nat, num: nat, flags: byte, addr: seq<byte>,
                     head: nat)
    : Parsed
    requires eob <= |buf| && 1 <= addrLen <= MAX_ADDRLEN && |addr| == MAX_ADDRLEN && head < addrLen
  {
    var full, zero := HasFlag(flags, ADDR_FULLTAIL), HasFlag(flags, ADDR_ZEROTAIL);
    if full && zero then Parsed(BadTailFlags, NO_ENTRY, c.ptr)
    else if zero then
      var (tail, c1) := GetU8(buf, c, eob);
      ParseMid(buf, c1, eob, addrLen, num, flags, addr, head, (addrLen - head - tail) % 256)
    else if full then
      var (tail, c1) := GetU8(buf, c, eob);
      if tail < 1 || tail >= MAX_ADDRLEN || tail >= addrLen then Parsed(BadTailLength, NO_ENTRY, c1.ptr)
      else if c1.ptr + tail > eob then Parsed(EndOfBuffer, NO_ENTRY, c1.ptr)
      else
        var addr' := Overlay(addr, addrLen - tail, buf[c1.ptr..c1.ptr + tail]);
        ParseMid(buf, Cursor(c1.ptr + tail, c1.result), eob, addrLen, num, flags, addr', head,
                 (addrLen - head - tail) % 256)
    else ParseMid(buf, c, eob, addrLen, num, flags, addr, head, addrLen - head)
  }

  function ParseMid(buf: seq<byte>, c: Cursor, eob: nat, addrLen: nat, num: nat, flags: byte, addr: seq<byte>,
                    head: nat, mid: nat): Parsed
    requires eob <= |buf| && 1 <= addrLen <= MAX_ADDRLEN
  {
    var q := c.ptr + Area(mid, num);
    var entry := Entry(num, addr, head, mid, c.ptr, None, 8 * addrLen);
    var single, multi := HasFlag(flags, ADDR_SINGLEPLEN), HasFlag(flags, ADDR_MULTIPLEN);
    if q > eob then Parsed(EndOfBuffer, NO_ENTRY, q)
    else if single && multi then Parsed(BadPrefixFlags, NO_ENTRY, q)
    else if single then
      if q + 1 > eob then Parsed(EndOfBuffer, NO_ENTRY, q + 1)
      else Parsed(c.result, entry.(prefixLen := buf[q]), q + 1)
    else if multi then
      if q + num > eob then Parsed(EndOfBuffer, NO_ENTRY, q + num)
      else Parsed(c.result, entry.(prefixes := Some(q)), q + num)
    else Parsed(c.result, entry, q)
  }

  // ---- address assembly ----

  // The entry describes addresses that lie inside the buffer.
  predicate Usable(e: Entry, buf: seq<byte>, addrLen: nat) {
    && e.midStart + e.midLen <= addrLen <= MAX_ADDRLEN == |e.addr|
    && e.midSrc + Area(e.midLen, e.numAddr) <= |buf|
    && (e.prefixes.Some? ==> e.prefixes.value + e.numAddr <= |buf|)
  }

  // netaddr_from_binary_prefix: prefix length 255 stands for the full length
  function FromBinary(bytes: seq<byte>, plen: byte): Address
    requires |bytes| <= MAX_ADDRLEN
  {
    Address(bytes, if plen == 255 then 8 * |bytes| else plen)
  }

  lemma MidIndex(m: nat, n: nat, i: nat)
    requires i < n
    ensures Area(m, i) + m <= Area(m, n)
  {
    assert m * (i + 1) <= m * n;
  }

  // The i-th address of a parsed block.
  function Assembled(e: Entry, buf: seq<byte>, addrLen: nat, i: nat): Address
    requires Usable(e, buf, addrLen) && i < e.numAddr
  {
    MidIndex(e.midLen, e.numAddr, i);
    var at := e.midSrc + Area(e.midLen, i);
    var addr := Overlay(e.addr, e.midStart, buf[at..at + e.midLen]);
    FromBinary(addr[..addrLen], if e.prefixes.Some? then buf[e.prefixes.value + i] else e.prefixLen)
  }

  // ---- round trip ----

  // The bytes s stand in the buffer at position p.
  predicate At(buf: seq<byte>, p: nat, s: seq<byte>) {
    p + |s| <= |buf| && buf[p..p + |s|] == s
  }

  lemma AtLength(buf: seq<byte>, p: nat, s: seq<byte>)
    requires At(buf, p, s)
    ensures p + |s| <= |buf|
  {
  }

  lemma AtSplit(buf: seq<byte>, p: nat, a: seq<byte>, b: seq<byte>)
    requires At(buf, p, a + b)
    ensures At(buf, p, a) && At(buf, p + |a|, b)
  {
    assert buf[p..p + |a + b|][..|a|] == a && buf[p..p + |a + b|][|a|..] == b;
  }

  lemma FlagBits(l: Layout)
    ensures HasFlag(Flags(l), ADDR_HEAD) == (l.head > 0)
    ensures HasFlag(Flags(l), ADDR_FULLTAIL) == (l.tail > 0 && !l.zeroTail)
    ensures HasFlag(Flags(l), ADDR_ZEROTAIL) == (l.tail > 0 && l.zeroTail)
    ensures HasFlag(Flags(l), ADDR_SINGLEPLEN) == (!l.multi && l.single)
    ensures HasFlag(Flags(l), ADDR_MULTIPLEN) == l.multi
  {
  }

  lemma AreaStep(m: nat, n: nat)
    ensures Area(m, n + 1) == Area(m, n) + m && Area(m, 0) == 0
  {
  }

  lemma {:induction false} MidsAt(addrs: seq<Address>, from: nat, m: nat, i: nat)
    requires forall k :: 0 <= k < |addrs| ==> from + m <= |addrs[k].bytes|
    requires i < |addrs|
    ensures |Mids(addrs, from, from + m)| == Area(m, |addrs|)
    ensures At(Mids(addrs, from, from + m), Area(m, i), addrs[i].bytes[from..from + m])
  {
    hide Area, At;
    var n := |addrs| - 1;
    var rest, last := Mids(addrs[..n], from, from + m), addrs[n].bytes[from..from + m];
    AreaStep(m, n);
    if n > 0 {
      MidsAt(addrs[..n], from, m, if i < n then i else 0);
    }
    assert |rest| == Area(m, n) && Mids(addrs, from, from + m) == rest + last;
    if i < n {
      AtLeft(rest, Area(m, i), addrs[i].bytes[from..from + m], last);
    } else {
      AtEnd(rest, last);
    }
  }

  lemma AtEnd(rest: seq<byte>, last: seq<byte>)
    ensures At(rest + last, |rest|, last)
  {
  }

  lemma AtLeft(buf: seq<byte>, p: nat, s: seq<byte>, more: seq<byte>)
    requires At(buf, p, s)
    ensures At(buf + more, p, s)
  {
    assert (buf + more)[p..p + |s|] == buf[p..p + |s|];
  }

  lemma AtSlice(buf: seq<byte>, p: nat, s: seq<byte>)
    requires At(buf, p, s)
    ensures p + |s| <= |buf| && buf[p..p + |s|] == s
  {
  }

  lemma AtIndex(buf: seq<byte>, p: nat, s: seq<byte>, k: nat)
    requires At(buf, p, s) && k < |s|
    ensures p + k < |buf| && buf[p + k] == s[k]
  {
    assert buf[p..p + |s|][k] == s[k];
  }

  lemma AtWithin(buf: seq<byte>, p: nat, s: seq<byte>, q: nat, t: seq<byte>)
    requires At(buf, p, s) && At(s, q, t)
    ensures At(buf, p + q, t)
  {
    forall k | 0 <= k < |t|
      ensures buf[p + q..p + q + |t|][k] == t[k]
    {
      assert s[q..q + |t|][k] == s[q + k] == buf[p..p + |s|][q + k];
    }
  }

  // The address template after the head and the tail have been read.
  function HeadTemplate(first: Address, l: Layout): (t: seq<byte>)
    requires l.head <= |first.bytes| <= MAX_ADDRLEN
    ensures |t| == MAX_ADDRLEN
  {
    Overlay(Blank(), 0, first.bytes[..l.head])
  }

  function Template(first: Address, l: Layout): (t: seq<byte>)
    requires l.head + l.tail <= |first.bytes| <= MAX_ADDRLEN
    ensures |t| == MAX_ADDRLEN
  {
    var n := |first.bytes|;
    if l.tail > 0 && !l.zeroTail then Overlay(HeadTemplate(first, l), n - l.tail, first.bytes[n - l.tail..])
    else HeadTemplate(first, l)
  }

  lemma ReadHead(buf: seq<byte>, q: nat, eob: nat, addrLen: nat, num: nat, first: Address, l: Layout)
    requires |first.bytes| == addrLen && 1 <= addrLen <= MAX_ADDRLEN && l.head + l.tail < addrLen
    requires At(buf, q, HeadPart(first, l)) && q + |HeadPart(first, l)| <= eob <= |buf|
    ensures ParseHead(buf, Cursor(q, Okay), eob, addrLen, num, Flags(l))
         == ParseTail(buf, Cursor(q + |HeadPart(first, l)|, Okay), eob, addrLen, num, Flags(l), HeadTemplate(first, l),
                      l.head)
  {
    FlagBits(l);
    if l.head > 0 {
      AtSplit(buf, q, [l.head], first.bytes[..l.head]);
      assert buf[q] == buf[q..q + 1][0] == l.head;
    } else {
      assert HeadTemplate(first, l) == Blank();
    }
  }

  lemma ReadTail(buf: seq<byte>, q: nat, eob: nat, addrLen: nat, num: nat, first: Address, l: Layout)
    requires |first.bytes| == addrLen && 1 <= addrLen <= MAX_ADDRLEN && l.head + l.tail < addrLen
    requires At(buf, q, TailPart(first, l)) && q + |TailPart(first, l)| <= eob <= |buf|
    ensures ParseTail(buf, Cursor(q, Okay), eob, addrLen, num, Flags(l), HeadTemplate(first, l), l.head)
         == ParseMid(buf, Cursor(q + |TailPart(first, l)|, Okay), eob, addrLen, num, Flags(l), Template(first, l),
                     l.head,
                     addrLen - l.head - l.tail)
  {
    hide ParseMid, HasFlag, Flags, HeadTemplate, Blank, Overlay, At;
    FlagBits(l);
    if l.tail > 0 {
      TailStands(buf, q, first, l);
    }
  }

  // The bytes of a tail in the buffer: its length, and its bytes unless they are zero.
  lemma TailStands(buf: seq<byte>, q: nat, first: Address, l: Layout)
    requires 0 < l.tail <= |first.bytes| && l.tail < 256 && At(buf, q, TailPart(first, l))
    ensures q < |buf| && buf[q] == l.tail
    ensures
      if l.zeroTail then |TailPart(first, l)| == 1
      else
        && |TailPart(first, l)| == 1 + l.tail && q + 1 + l.tail <= |buf|
        && buf[q + 1..q + 1 + l.tail] == first.bytes[|first.bytes| - l.tail..]
  {
    var last := if l.zeroTail then [] else first.bytes[|first.bytes| - l.tail..];
    AtSplit(buf, q, [l.tail], last);
    assert buf[q] == buf[q..q + 1][0];
  }

  // The entry the parser makes of a block whose middle parts lie between q and r.
  function EntryOf(addrs: seq<Address>, addrLen: nat, l: Layout, q: nat, r: nat): Entry
    requires Block(addrs, addrLen) && l.head + l.tail < addrLen
  {
    Entry(|addrs|, Template(addrs[0], l), l.head, addrLen - l.head - l.tail, q, if l.multi then Some(r) else None,
          if !l.multi && l.single then addrs[0].plen else 8 * addrLen)
  }

  lemma ReadMid(buf: seq<byte>, q: nat, r: nat, eob: nat, addrs: seq<Address>, addrLen: nat, l: Layout, mid: nat,
                t: seq<byte>)
    requires Block(addrs, addrLen) && l.head + l.tail < addrLen
    requires mid == addrLen - l.head - l.tail && r == q + Area(mid, |addrs|) && t == Template(addrs[0], l)
    requires At(buf, r, PlenPart(addrs, l)) && r + |PlenPart(addrs, l)| <= eob <= |buf|
    ensures ParseMid(buf, Cursor(q, Okay), eob, addrLen, |addrs|, Flags(l), t, l.head, mid)
         == Parsed(Okay, EntryOf(addrs, addrLen, l, q, r), r + |PlenPart(addrs, l)|)
  {
    FlagBits(l);
    hide HasFlag, Flags, Template, Area;
    if !l.multi && l.single {
      assert buf[r] == buf[r..r + 1][0];
    }
  }

  lemma OverlayAt(t: seq<byte>, at: nat, s: seq<byte>, k: nat)
    requires at + |s| <= |t| && k < |t|
    ensures Overlay(t, at, s)[k] == if at <= k < at + |s| then s[k - at] else t[k]
  {
  }

  lemma TemplateAt(first: Address, l: Layout, k: nat)
    requires l.head + l.tail <= |first.bytes| <= MAX_ADDRLEN && k < |first.bytes|
    requires k < l.head || k >= |first.bytes| - l.tail
    requires l.zeroTail ==> AllZero(first.bytes[|first.bytes| - l.tail..])
    ensures Template(first, l)[k] == first.bytes[k]
  {
    var n := |first.bytes|;
    OverlayAt(Blank(), 0, first.bytes[..l.head], k);
    if l.tail > 0 && !l.zeroTail {
      OverlayAt(HeadTemplate(first, l), n - l.tail, first.bytes[n - l.tail..], k);
    } else if k >= n - l.tail {
      assert first.bytes[n - l.tail..][k - (n - l.tail)] == 0;
    }
  }

  // The i-th address comes back: head, middle part and tail joined.
  lemma AssembledBytes(first: Address, a: Address, l: Layout, addrLen: nat)
    requires |first.bytes| == |a.bytes| == addrLen && 1 <= addrLen <= MAX_ADDRLEN && l.head + l.tail < addrLen
    requires a.bytes[..l.head] == first.bytes[..l.head]
    requires a.bytes[addrLen - l.tail..] == first.bytes[addrLen - l.tail..]
    requires l.zeroTail ==> AllZero(first.bytes[addrLen - l.tail..])
    ensures Overlay(Template(first, l), l.head, a.bytes[l.head..addrLen - l.tail])[..addrLen] == a.bytes
  {
    hide Template, Overlay, AllZero;
    var n := addrLen - l.tail;
    var r := Overlay(Template(first, l), l.head, a.bytes[l.head..n]);
    forall k | 0 <= k < addrLen
      ensures r[..addrLen][k] == a.bytes[k]
    {
      OverlayAt(Template(first, l), l.head, a.bytes[l.head..n], k);
      if k < l.head {
        TemplateAt(first, l, k);
        assert first.bytes[..l.head][k] == a.bytes[..l.head][k];
      } else if k >= n {
        TemplateAt(first, l, k);
        assert a.bytes[n..][k - n] == first.bytes[n..][k - n];
      }
    }
  }

  // What the compression promises about a block it closes.
  predicate Promised(addrs: seq<Address>, addrLen: nat, headLen: nat, multi: bool) {
    && Block(addrs, addrLen) && headLen < addrLen && SameHead(addrs, addrLen, headLen)
    && (!multi ==> forall i :: 0 <= i < |addrs| ==> addrs[i].plen == addrs[0].plen)
  }

  // What the layout says is true of every address of the block.
  predicate Fitting(addrs: seq<Address>, addrLen: nat, l: Layout) {
    && Block(addrs, addrLen) && l.head + l.tail < addrLen
    && SameHead(addrs, addrLen, l.head) && SameTail(addrs, addrLen, l.tail)
    && (l.zeroTail ==> AllZero(addrs[0].bytes[addrLen - l.tail..]))
    && (!l.multi ==>
         forall i :: 0 <= i < |addrs| ==> addrs[i].plen == (if l.single then addrs[0].plen else 8 * addrLen))
  }

  lemma LayoutFits(addrs: seq<Address>, addrLen: nat, headLen: nat, multi: bool)
    requires Promised(addrs, addrLen, headLen, multi)
    ensures Fitting(addrs, addrLen, LayoutOf(addrs, addrLen, headLen, multi))
  {
  }

  // The positions of the parts of a written block.
  lemma WrittenParts(buf: seq<byte>, p: nat, addrs: seq<Address>, l: Layout, h: seq<byte>, t: seq<byte>, m: seq<byte>,
                     n: seq<byte>)
    requires 0 < |addrs| < 256 && At(buf, p, Front(|addrs|, Flags(l)) + h + t + m + n)
    ensures buf[p] == |addrs| && buf[p + 1] == Flags(l) && At(buf, p + 2, h) && At(buf, p + 2 + |h|, t)
    ensures At(buf, p + 2 + |h| + |t|, m) && At(buf, p + 2 + |h| + |t| + |m|, n)
  {
    var front := Front(|addrs|, Flags(l));
    AtSplit(buf, p, front + h + t + m, n);
    AtSplit(buf, p, front + h + t, m);
    AtSplit(buf, p, front + h, t);
    AtSplit(buf, p, front, h);
    assert buf[p..p + 2][0] == |addrs| && buf[p..p + 2][1] == Flags(l);
  }

  lemma ReadFront(buf: seq<byte>, p: nat, eob: nat, addrLen: nat, num: nat, flags: byte)
    requires p + 2 <= eob <= |buf| && 1 <= addrLen <= MAX_ADDRLEN && buf[p] == num > 0 && buf[p + 1] == flags
    ensures ParseBlock(buf, p, eob, addrLen) == ParseHead(buf, Cursor(p + 2, Okay), eob, addrLen, num, flags)
  {
    hide ParseHead;
  }

  // The parts of a written block stand one behind the other, from p up to `end`.
  predicate Standing(buf: seq<byte>, p: nat, addrs: seq<Address>, addrLen: nat, l: Layout, q: nat, r: nat, end: nat)
    requires Block(addrs, addrLen) && l.head + l.tail < addrLen
  {
    var h, t := HeadPart(addrs[0], l), TailPart(addrs[0], l);
    && p + 2 <= end <= |buf| && buf[p] == |addrs| && buf[p + 1] == Flags(l)
    && At(buf, p + 2, h) && At(buf, p + 2 + |h|, t) && q == p + 2 + |h| + |t|
    && At(buf, q, Mids(addrs, l.head, addrLen - l.tail)) && r == q + Area(addrLen - l.head - l.tail, |addrs|)
    && At(buf, r, PlenPart(addrs, l)) && end == r + |PlenPart(addrs, l)|
  }

  lemma BlockStands(buf: seq<byte>, p: nat, addrs: seq<Address>, addrLen: nat, l: Layout)
    returns (q: nat, r: nat, end: nat)
    requires Block(addrs, addrLen) && l.head + l.tail < addrLen && At(buf, p, PartBytes(addrs, addrLen, l))
    ensures Standing(buf, p, addrs, addrLen, l, q, r, end) && end == p + |PartBytes(addrs, addrLen, l)|
  {
    hide At, HeadPart, TailPart, Mids, PlenPart, Flags, Area;
    var h, t := HeadPart(addrs[0], l), TailPart(addrs[0], l);
    var m, n := Mids(addrs, l.head, addrLen - l.tail), PlenPart(addrs, l);
    MidsAt(addrs, l.head, addrLen - l.head - l.tail, 0);
    WrittenParts(buf, p, addrs, l, h, t, m, n);
    q := p + 2 + |h| + |t|;
    r := q + |m|;
    end := r + |n|;
  }

  // Every field of the entry is where the writer has put it.
  lemma ParseWritten(buf: seq<byte>, p: nat, eob: nat, addrs: seq<Address>, addrLen: nat, l: Layout, q: nat, r: nat,
                     end: nat)
    requires Block(addrs, addrLen) && l.head + l.tail < addrLen
    requires Standing(buf, p, addrs, addrLen, l, q, r, end) && end <= eob <= |buf|
    ensures ParseBlock(buf, p, eob, addrLen) == Parsed(Okay, EntryOf(addrs, addrLen, l, q, r), end)
  {
    hide Area, HeadPart, TailPart, PlenPart, Flags, EntryOf, ParseBlock, ParseHead, ParseTail, ParseMid, At;
    hide Template, Mids;
    var h := HeadPart(addrs[0], l);
    ReadFront(buf, p, eob, addrLen, |addrs|, Flags(l));
    ReadHead(buf, p + 2, eob, addrLen, |addrs|, addrs[0], l);
    ReadTail(buf, p + 2 + |h|, eob, addrLen, |addrs|, addrs[0], l);
    ReadMid(buf, q, r, eob, addrs, addrLen, l, addrLen - l.head - l.tail, Template(addrs[0], l));
  }

  lemma FitsAt(addrs: seq<Address>, addrLen: nat, l: Layout, i: nat)
    requires Fitting(addrs, addrLen, l) && i < |addrs|
    ensures |addrs[i].bytes| == |addrs[0].bytes| == addrLen <= MAX_ADDRLEN && addrs[i].plen <= 8 * addrLen
    ensures Block(addrs, addrLen) && l.head + l.tail < addrLen
    ensures addrs[i].bytes[..l.head] == addrs[0].bytes[..l.head]
    ensures addrs[i].bytes[addrLen - l.tail..] == addrs[0].bytes[addrLen - l.tail..]
    ensures l.zeroTail ==> AllZero(addrs[0].bytes[addrLen - l.tail..])
    ensures !l.multi ==> addrs[i].plen == (if l.single then addrs[0].plen else 8 * addrLen)
  {
  }

  lemma AssembledAddress(buf: seq<byte>, q: nat, r: nat, addrs: seq<Address>, addrLen: nat, l: Layout, mid: nat,
                         m: seq<byte>, i: nat)
    requires Fitting(addrs, addrLen, l) && i < |addrs| && mid == addrLen - l.head - l.tail
    requires |m| == Area(mid, |addrs|) && At(m, Area(mid, i), addrs[i].bytes[l.head..l.head + mid])
    requires At(buf, q, m) && At(buf, r, PlenPart(addrs, l)) && r == q + |m|
    ensures var e := EntryOf(addrs, addrLen, l, q, r);
            Usable(e, buf, addrLen) && Assembled(e, buf, addrLen, i) == addrs[i]
  {
    hide Area, SameHead, SameTail, AllZero, Template, Block, Wide, Overlay, At, Fitting, Plens;
    FitsAt(addrs, addrLen, l, i);
    var e := EntryOf(addrs, addrLen, l, q, r);
    AtSlice(buf, q, m);
    AtWithin(buf, q, m, Area(mid, i), addrs[i].bytes[l.head..l.head + mid]);
    AssembledBytes(addrs[0], addrs[i], l, addrLen);
    AtSlice(buf, q + Area(mid, i), addrs[i].bytes[l.head..l.head + mid]);
    if l.multi {
      AtSlice(buf, r, PlenPart(addrs, l));
      PlenPartAt(addrs, l, i);
      AtIndex(buf, r, PlenPart(addrs, l), i);
    }
  }

  lemma PlenPartAt(addrs: seq<Address>, l: Layout, i: nat)
    requires l.multi && i < |addrs|
    ensures |PlenPart(addrs, l)| == |addrs| && PlenPart(addrs, l)[i] == addrs[i].plen
  {
  }

  // What the parser returns for a block that stands in the buffer.
  predicate ReadsBack(parsed: Parsed, buf: seq<byte>, end: nat, addrs: seq<Address>, addrLen: nat) {
    && parsed.result == Okay && parsed.ptr == end
    && parsed.entry.numAddr == |addrs| && Usable(parsed.entry, buf, addrLen)
    && forall i :: 0 <= i < |addrs| ==> Assembled(parsed.entry, buf, addrLen, i) == addrs[i]
  }

  lemma AssembledAll(buf: seq<byte>, p: nat, q: nat, r: nat, addrs: seq<Address>, addrLen: nat, l: Layout, e: Entry,
                     end: nat)
    requires Fitting(addrs, addrLen, l) && e == EntryOf(addrs, addrLen, l, q, r)
    requires Standing(buf, p, addrs, addrLen, l, q, r, end)
    ensures ReadsBack(Parsed(Okay, e, end), buf, end, addrs, addrLen)
  {
    hide Area, Usable, Assembled, HeadPart, TailPart, PlenPart, At, SameHead, SameTail, Template, AllZero, Flags, Mids;
    var m, mid := Mids(addrs, l.head, addrLen - l.tail), addrLen - l.head - l.tail;
    MidsAt(addrs, l.head, mid, 0);
    AssembledAddress(buf, q, r, addrs, addrLen, l, mid, m, 0);
    forall i | 0 <= i < |addrs|
      ensures Assembled(e, buf, addrLen, i) == addrs[i]
    {
      MidsAt(addrs, l.head, mid, i);
      AssembledAddress(buf, q, r, addrs, addrLen, l, mid, m, i);
    }
  }

  // Round trip for a block of a fitting layout.
  lemma RoundTripLayout(buf: seq<byte>, p: nat, eob: nat, addrs: seq<Address>, addrLen: nat, l: Layout)
    requires Fitting(addrs, addrLen, l) && At(buf, p, PartBytes(addrs, addrLen, l))
    requires p + |PartBytes(addrs, addrLen, l)| <= eob <= |buf|
    ensures ReadsBack(ParseBlock(buf, p, eob, addrLen), buf, p + |PartBytes(addrs, addrLen, l)|, addrs, addrLen)
  {
    hide Standing, At, PartBytes, ReadsBack, ParseBlock, EntryOf, SameHead, SameTail, AllZero;
    var q, r, end := BlockStands(buf, p, addrs, addrLen, l);
    ParseWritten(buf, p, eob, addrs, addrLen, l, q, r, end);
    AssembledAll(buf, p, q, r, addrs, addrLen, l, EntryOf(addrs, addrLen, l, q, r), end);
  }

  // Round trip: parsing the bytes of a block gives the addresses and prefix lengths back, in order.
  lemma RoundTripBlock(buf: seq<byte>, p: nat, eob: nat, addrs: seq<Address>, addrLen: nat, headLen: nat, multi: bool)
    requires Promised(addrs, addrLen, headLen, multi)
    requires At(buf, p, BlockBytes(addrs, addrLen, headLen, multi))
    requires p + |BlockBytes(addrs, addrLen, headLen, multi)| <= eob <= |buf|
    ensures
      var end := p + |BlockBytes(addrs, addrLen, headLen, multi)|;
      ReadsBack(ParseBlock(buf, p, eob, addrLen), buf, end, addrs, addrLen)
  {
    hide ReadsBack, ParseBlock, LayoutOf, Fitting, At, Flags, HeadPart, TailPart, Mids, PlenPart;
    var l := LayoutOf(addrs, addrLen, headLen, multi);
    LayoutFits(addrs, addrLen, headLen, multi);
    RoundTripLayout(buf, p, eob, addrs, addrLen, l);
  }

  // ---- sizes ----

  lemma WholeAt(out: seq<byte>)
    ensures At(out, 0, out)
  {
  }

  lemma BlockIs(addrs: seq<Address>, addrLen: nat, headLen: nat, multi: bool)
    requires Block(addrs, addrLen) && headLen < addrLen
    ensures BlockBytes(addrs, addrLen, headLen, multi)
         == PartBytes(addrs, addrLen, LayoutOf(addrs, addrLen, headLen, multi))
  {
  }

  lemma PartLengths(first: Address, l: Layout)
    requires l.head + l.tail <= |first.bytes| && l.head + l.tail < 256
    ensures |HeadPart(first, l)| == if l.head > 0 then 1 + l.head else 0
    ensures |TailPart(first, l)| == if l.tail == 0 then 0 else if l.zeroTail then 1 else 1 + l.tail
  {
  }

  lemma LayoutIs(addrs: seq<Address>, addrLen: nat, headLen: nat, multi: bool)
    requires Block(addrs, addrLen) && headLen < addrLen
    ensures
      var l := LayoutOf(addrs, addrLen, headLen, multi);
      && l.head == (if |addrs| == 1 then 0 else headLen)
      && l.tail == (if |addrs| == 1 then 0 else LongestTail(addrs, addrLen, addrLen - l.head - 1))
      && (l.tail > 0 ==> (l.zeroTail <==> AllZero(addrs[0].bytes[addrLen - l.tail..])))
      && l.multi == multi && (l.single <==> addrs[0].plen != 8 * addrLen)
  {
  }

  // The size of a block, part by part.
  lemma BlockSize(addrs: seq<Address>, addrLen: nat, headLen: nat, multi: bool)
    requires Block(addrs, addrLen) && headLen < addrLen
    ensures
      var l := LayoutOf(addrs, addrLen, headLen, multi);
      && l.head == (if |addrs| == 1 then 0 else headLen) && (|addrs| == 1 ==> l.tail == 0)
      && |BlockBytes(addrs, addrLen, headLen, multi)|
         == 2 + (if l.head > 0 then 1 + l.head else 0)
            + (if l.tail == 0 then 0 else if l.zeroTail then 1 else 1 + l.tail)
            + Area(addrLen - l.head - l.tail, |addrs|)
            + if multi then |addrs| else if addrs[0].plen != 8 * addrLen then 1 else 0
  {
    hide At, Area, Flags, LongestTail, AllZero, Mids, BlockBytes, LayoutOf, HeadPart, TailPart;
    var l := LayoutOf(addrs, addrLen, headLen, multi);
    LayoutIs(addrs, addrLen, headLen, multi);
    var out := BlockBytes(addrs, addrLen, headLen, multi);
    WholeAt(out);
    BlockIs(addrs, addrLen, headLen, multi);
    var q, r, end := BlockStands(out, 0, addrs, addrLen, l);
    PartLengths(addrs[0], l);
  }
}
