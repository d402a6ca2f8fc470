// Address TLVs: runs of equal types are written as one TLV with an index range.
module AddrTlv {
  import opened Arith
  import opened Basics
  import opened Rfc5444
  import opened AddrBlock

  // A TLV of an address; the kind is the type with its extension, 256 * type + extension.
  datatype Tlv = Tlv(kind: nat, value: seq<byte>)

  // The TLVs of one address, sorted by kind, at most one of each kind.
  predicate TlvTree(tree: seq<Tlv>) {
    && (forall k :: 0 <= k < |tree| ==> tree[k].kind < 65536 && |tree[k].value| < 65536)
    && forall j, k :: 0 <= j < k < |tree| ==> tree[j].kind < tree[k].kind
  }

  // A run of TLVs of one kind, one for each of the addresses lo, lo + 1, ...
  datatype Group = Group(kind: nat, lo: nat, values: seq<seq<byte>>, same: bool)

  // The last address of the run.
  function Last(g: Group): nat
    requires g.values != []
  {
    g.lo + |g.values| - 1
  }

  predicate SameValues(values: seq<seq<byte>>) {
    forall k :: 0 <= k < |values| ==> values[k] == values[0]
  }

  predicate EvenValues(values: seq<seq<byte>>) {
    forall k :: 0 <= k < |values| ==> |values[k]| == |values[0]|
  }

  // A group of a block of n addresses.
  predicate Grouped(g: Group, n: nat) {
    && g.values != [] && g.lo + |g.values| <= n && g.kind < 65536 && |g.values[0]| < 65536
    && EvenValues(g.values) && (g.same <==> SameValues(g.values))
  }

  predicate AllGrouped(groups: seq<Group>, n: nat) {
    forall k :: 0 <= k < |groups| ==> Grouped(groups[k], n)
  }

  // ---- what is written ----

  function Concat(values: seq<seq<byte>>): seq<byte> {
    if values == [] then [] else Concat(values[..|values| - 1]) + values[|values| - 1]
  }

  // The 16 bit length field.
  function TotalLength(g: Group): (t: nat)
    requires g.values != []
    ensures t < 65536
  {
    (if g.same then |g.values[0]| else Area(|g.values[0]|, |g.values|)) % 65536
  }

  // The index range lo..hi of a block of n addresses.
  function IndexFlag(lo: nat, hi: nat, n: nat): byte {
    if lo == 0 && hi == n - 1 then 0 else if lo == hi then TLV_SINGLE_IDX else TLV_MULTI_IDX
  }

  function LengthFlags(total: nat): byte {
    (if total > 255 then TLV_EXTVALUE else 0) + (if total > 0 then TLV_VALUE else 0)
  }

  function TlvFlags(g: Group, n: nat): byte
    requires g.values != []
  {
    (if g.kind % 256 > 0 then TLV_TYPEEXT else 0) + IndexFlag(g.lo, Last(g), n) + (if g.same then 0 else TLV_MULTIVALUE)
    + LengthFlags(TotalLength(g))
  }

  function TypeBytes(kind: nat, flags: byte): seq<byte>
    requires kind < 65536
  {
    [kind / 256, flags] + (if kind % 256 > 0 then [kind % 256] else [])
  }

  function IndexBytes(lo: byte, hi: byte, n: nat): seq<byte> {
    if lo == 0 && hi == n - 1 then [] else if lo == hi then [lo] else [lo, hi]
  }

  function LengthBytes(total: nat): seq<byte>
    requires total < 65536
  {
    (if total > 255 then [total / 256] else []) + (if total > 0 then [total % 256] else [])
  }

  function ValueBytes(g: Group): seq<byte>
    requires g.values != []
  {
    if g.same then g.values[0] else Concat(g.values)
  }

  function GroupBytes(g: Group, n: nat): seq<byte>
    requires Grouped(g, n) && n < 256
  {
    TypeBytes(g.kind, TlvFlags(g, n)) + IndexBytes(g.lo, Last(g), n) + LengthBytes(TotalLength(g)) + ValueBytes(g)
  }

  // ---- what is read ----

  datatype TlvEntry = TlvEntry(kind: nat, index1: nat, index2: nat, length: nat, multi: bool, value: nat)

  const NO_TLV := TlvEntry(0, 0, 0, 0, false, 0)

  datatype ParsedTlv = ParsedTlv(result: Result, entry: TlvEntry, ptr: nat)

  // _parse_tlv, for a block of n addresses; n is 0 for message and packet TLVs
  function ParseTlv(buf: seq<byte>, p: nat, eob: nat, n: byte): ParsedTlv
    requires eob <= |buf|
  {
    var (kind, c1) := GetU8(buf, Cursor(p, Okay), eob);
    var (flags, c2) := GetU8(buf, c1, eob);
    var (ext, c3) := if HasFlag(flags, TLV_TYPEEXT) then GetU8(buf, c2, eob) else (0, c2);
    ParseIndexes(buf, c3, eob, n, flags, kind * 256 + ext)
  }

  function ParseIndexes(buf: seq<byte>, c: Cursor, eob: nat, n: byte, flags: byte, kind: nat): ParsedTlv
    requires eob <= |buf|
  {
    var single, multi := HasFlag(flags, TLV_SINGLE_IDX), HasFlag(flags, TLV_MULTI_IDX);
    if single && multi then ParsedTlv(BadTlvIdxFlags, NO_TLV, eob)
    else
      var (i1, c1) := if single || multi then GetU8(buf, c, eob) else (0, c);
      var (i2, c2) := if multi then GetU8(buf, c1, eob) else if single then (i1, c1) else ((n + 255) % 256, c1);
      if n > 0 && (i1 >= n || i2 >= n) then ParsedTlv(BadTlvIndex, NO_TLV, eob)
      else ParseLength(buf, c2, eob, flags, kind, i1, i2)
  }

  function ParseLength(buf: seq<byte>, c: Cursor, eob: nat, flags: byte, kind: nat, i1: byte, i2: byte): ParsedTlv
    requires eob <= |buf|
  {
    var value, wide := HasFlag(flags, TLV_VALUE), HasFlag(flags, TLV_EXTVALUE);
    if wide && !value then ParsedTlv(BadTlvValueFlags, NO_TLV, eob)
    else
      var (length, c1) := if wide then GetU16(buf, c, eob) else if value then GetU8(buf, c, eob) else (0, c);
      ParseValue(c1, eob, HasFlag(flags, TLV_MULTIVALUE), kind, i1, i2, length)
  }

  function ParseValue(c: Cursor, eob: nat, multi: bool, kind: nat, i1: byte, i2: byte, length: nat): ParsedTlv {
    var count := (i2 + 257 - i1) % 256;
    if c.ptr + length > eob then ParsedTlv(EndOfBuffer, NO_TLV, eob)
    else if c.result != Okay then ParsedTlv(c.result, NO_TLV, eob)
    else if length == 0 then ParsedTlv(Okay, TlvEntry(kind, i1, i2, 0, multi, c.ptr), c.ptr)
    else if !multi || count == 1 then ParsedTlv(Okay, TlvEntry(kind, i1, i2, length, false, c.ptr), c.ptr + length)
    else if count == 0 then ParsedTlv(Undefined, NO_TLV, c.ptr + length)
    else if length % count != 0 then ParsedTlv(BadTlvLength, NO_TLV, c.ptr + length)
    else ParsedTlv(Okay, TlvEntry(kind, i1, i2, length / count, true, c.ptr), c.ptr + length)
  }

  // The value pointer of _schedule_tlvblock lies inside the buffer.
  predicate Handed(e: TlvEntry, buf: seq<byte>, i: nat) {
    && e.index1 <= i <= e.index2
    && e.value + (if e.multi then Area(e.length, i - e.index1) else 0) + e.length <= |buf|
  }

  // The TLV the consumers of address i are handed.
  function HandedTlv(e: TlvEntry, buf: seq<byte>, i: nat): Tlv
    requires Handed(e, buf, i)
  {
    var at := e.value + if e.multi then Area(e.length, i - e.index1) else 0;
    Tlv(e.kind, buf[at..at + e.length])
  }

  // ---- round trip of one group ----

  // The entry means what the group means, for every address.
  predicate Matches(e: TlvEntry, buf: seq<byte>, g: Group) {
    && e.index1 == g.lo && e.index2 + 1 == g.lo + |g.values|
    && forall i :: g.lo <= i < g.lo + |g.values| ==>
         Handed(e, buf, i) && HandedTlv(e, buf, i) == Tlv(g.kind, g.values[i - g.lo])
  }

  lemma {:induction false} ConcatAt(values: seq<seq<byte>>, k: nat)
    requires k < |values| && EvenValues(values)
    ensures |Concat(values)| == Area(|values[0]|, |values|)
    ensures At(Concat(values), Area(|values[0]|, k), values[k])
  {
    hide Area, At;
    var n, m := |values| - 1, |values[0]|;
    AreaStep(m, n);
    if n > 0 {
      ConcatAt(values[..n], if k < n then k else 0);
      assert Concat(values) == Concat(values[..n]) + values[n];
    } else {
      assert Concat(values[..0]) == [];
    }
    if k < n {
      AtLeft(Concat(values[..n]), Area(m, k), values[k], values[n]);
    } else {
      AtEnd(Concat(values[..n]), values[n]);
    }
  }

  lemma TlvFlagBits(g: Group, n: nat)
    requires g.values != []
    ensures var f, total := TlvFlags(g, n), TotalLength(g);
      && HasFlag(f, TLV_TYPEEXT) == (g.kind % 256 > 0)
      && HasFlag(f, TLV_SINGLE_IDX) == (IndexFlag(g.lo, Last(g), n) == TLV_SINGLE_IDX)
      && HasFlag(f, TLV_MULTI_IDX) == (IndexFlag(g.lo, Last(g), n) == TLV_MULTI_IDX)
      && HasFlag(f, TLV_VALUE) == (total > 0) && HasFlag(f, TLV_EXTVALUE) == (total > 255)
      && HasFlag(f, TLV_MULTIVALUE) == !g.same
  {
    hide TotalLength, Last;
  }

  lemma ReadType(buf: seq<byte>, p: nat, eob: nat, kind: nat, flags: byte, n: byte, ty: seq<byte>)
    requires kind < 65536 && HasFlag(flags, TLV_TYPEEXT) == (kind % 256 > 0)
    requires ty == TypeBytes(kind, flags) && At(buf, p, ty) && p + |ty| <= eob <= |buf|
    ensures ParseTlv(buf, p, eob, n) == ParseIndexes(buf, Cursor(p + |ty|, Okay), eob, n, flags, kind)
  {
    hide ParseIndexes, At, HasFlag;
    AtIndex(buf, p, ty, 0);
    AtIndex(buf, p, ty, 1);
    if kind % 256 > 0 {
      AtIndex(buf, p, ty, 2);
    }
  }

  lemma ReadIndexes(buf: seq<byte>, p: nat, eob: nat, lo: byte, hi: byte, n: byte, flags: byte, kind: nat,
                    ix: seq<byte>)
    requires lo <= hi < n && HasFlag(flags, TLV_SINGLE_IDX) == (IndexFlag(lo, hi, n) == TLV_SINGLE_IDX)
    requires HasFlag(flags, TLV_MULTI_IDX) == (IndexFlag(lo, hi, n) == TLV_MULTI_IDX)
    requires ix == IndexBytes(lo, hi, n) && At(buf, p, ix) && p + |ix| <= eob <= |buf|
    ensures ParseIndexes(buf, Cursor(p, Okay), eob, n, flags, kind)
         == ParseLength(buf, Cursor(p + |ix|, Okay), eob, flags, kind, lo, hi)
  {
    hide ParseLength, At, HasFlag;
    if |ix| > 0 {
      AtIndex(buf, p, ix, 0);
    }
    if |ix| > 1 {
      AtIndex(buf, p, ix, 1);
    }
  }

  lemma ReadLength(buf: seq<byte>, p: nat, eob: nat, total: nat, flags: byte, kind: nat, le: seq<byte>, i1: byte,
                   i2: byte)
    requires total < 65536 && HasFlag(flags, TLV_VALUE) == (total > 0) && HasFlag(flags, TLV_EXTVALUE) == (total > 255)
    requires le == LengthBytes(total) && At(buf, p, le) && p + |le| <= eob <= |buf|
    ensures ParseLength(buf, Cursor(p, Okay), eob, flags, kind, i1, i2)
         == ParseValue(Cursor(p + |le|, Okay), eob, HasFlag(flags, TLV_MULTIVALUE), kind, i1, i2, total)
  {
    hide ParseValue, At, HasFlag;
    if |le| > 0 {
      AtIndex(buf, p, le, 0);
    }
    if |le| > 1 {
      AtIndex(buf, p, le, 1);
    }
  }

  lemma AreaDivides(m: nat, n: nat)
    requires n > 0
    ensures Area(m, n) % n == 0 && Area(m, n) / n == m && (m > 0 ==> Area(m, n) > 0) && (m == 0 ==> Area(m, n) == 0)
  {
    QuotientIs(m * n, n, m, 0);
    if m > 0 {
      TimesOrder(n, 1, m);
    }
  }

  lemma ValueMatches(buf: seq<byte>, p: nat, g: Group, n: byte, e: TlvEntry)
    requires Grouped(g, n) && At(buf, p, ValueBytes(g)) && e.kind == g.kind && e.value == p && e.length == |g.values[0]|
    requires e.index1 == g.lo && e.index2 + 1 == g.lo + |g.values| && e.multi == !g.same
    ensures Matches(e, buf, g)
  {
    hide Area, At;
    forall i | g.lo <= i < g.lo + |g.values|
      ensures Handed(e, buf, i) && HandedTlv(e, buf, i) == Tlv(g.kind, g.values[i - g.lo])
    {
      var k := i - g.lo;
      if g.same {
        AtSlice(buf, p, g.values[0]);
      } else {
        ConcatAt(g.values, k);
        AtWithin(buf, p, Concat(g.values), Area(|g.values[0]|, k), g.values[k]);
        AtSlice(buf, p + Area(|g.values[0]|, k), g.values[k]);
      }
    }
  }

  // Values of no bytes are all the same.
  lemma EmptyValues(g: Group, n: nat)
    requires Grouped(g, n) && |g.values[0]| == 0
    ensures g.same
  {
    assert forall k :: 0 <= k < |g.values| ==> g.values[k] == [];
  }

  lemma EntryRead(p: nat, eob: nat, multi: bool, kind: nat, i1: byte, i2: byte, m: nat, length: nat)
    requires i1 <= i2 && i2 - i1 < 255 && p + length <= eob
    requires length == (if multi then Area(m, i2 - i1 + 1) else m) && (multi ==> i1 < i2 && m > 0)
    ensures ParseValue(Cursor(p, Okay), eob, multi, kind, i1, i2, length)
         == ParsedTlv(Okay, TlvEntry(kind, i1, i2, m, multi, p), p + length)
  {
    AreaDivides(m, i2 - i1 + 1);
    hide Area;
    assert (i2 + 257 - i1) % 256 == i2 - i1 + 1;
  }

  lemma SingleIsSame(g: Group, n: nat)
    requires Grouped(g, n) && |g.values| == 1
    ensures g.same
  {
  }

  // The length field is right as long as the value fits into 16 bits.
  lemma TotalRight(g: Group, n: nat)
    requires Grouped(g, n) && |ValueBytes(g)| < 65536
    ensures TotalLength(g) == |ValueBytes(g)| == (if g.same then |g.values[0]| else Area(|g.values[0]|, |g.values|))
  {
    ConcatAt(g.values, 0);
    hide Area, At, Concat, EvenValues, SameValues;
  }

  lemma ReadValue(buf: seq<byte>, p: nat, eob: nat, g: Group, n: byte)
    requires Grouped(g, n) && At(buf, p, ValueBytes(g)) && p + |ValueBytes(g)| <= eob <= |buf|
    requires |ValueBytes(g)| < 65536
    ensures var r := ParseValue(Cursor(p, Okay), eob, !g.same, g.kind, g.lo, Last(g), TotalLength(g));
      r.result == Okay && r.ptr == p + |ValueBytes(g)| && Matches(r.entry, buf, g)
  {
    TotalRight(g, n);
    hide Area, At, Matches, ValueBytes, EvenValues, SameValues, ParseValue, TotalLength;
    if |g.values| == 1 {
      SingleIsSame(g, n);
    }
    if |g.values[0]| == 0 {
      EmptyValues(g, n);
    }
    EntryRead(p, eob, !g.same, g.kind, g.lo, Last(g), |g.values[0]|, |ValueBytes(g)|);
    ValueMatches(buf, p, g, n, TlvEntry(g.kind, g.lo, Last(g), |g.values[0]|, !g.same, p));
  }

  // Parsing the bytes of a group gives an entry that means the same.
  lemma RoundTripGroup(buf: seq<byte>, p: nat, eob: nat, g: Group, n: byte)
    requires Grouped(g, n) && At(buf, p, GroupBytes(g, n)) && p + |GroupBytes(g, n)| <= eob <= |buf|
    requires |ValueBytes(g)| < 65536
    ensures var r := ParseTlv(buf, p, eob, n);
      r.result == Okay && r.ptr == p + |GroupBytes(g, n)| && Matches(r.entry, buf, g)
  {
    hide At, TypeBytes, IndexBytes, LengthBytes, ValueBytes, TlvFlags, Matches, ParseTlv, ParseIndexes;
    hide ParseLength, ParseValue, TotalLength, EvenValues, SameValues, HasFlag, IndexFlag;
    var ty, ix := TypeBytes(g.kind, TlvFlags(g, n)), IndexBytes(g.lo, Last(g), n);
    var le, v := LengthBytes(TotalLength(g)), ValueBytes(g);
    AtSplit(buf, p, ty + ix + le, v);
    AtSplit(buf, p, ty + ix, le);
    AtSplit(buf, p, ty, ix);
    var q := p + |ty|;
    TlvFlagBits(g, n);
    ReadType(buf, p, eob, g.kind, TlvFlags(g, n), n, ty);
    ReadIndexes(buf, q, eob, g.lo, Last(g), n, TlvFlags(g, n), g.kind, ix);
    ReadLength(buf, q + |ix|, eob, TotalLength(g), TlvFlags(g, n), g.kind, le, g.lo, Last(g));
    ReadValue(buf, q + |ix| + |le|, eob, g, n);
  }

  // ---- what the groups of a block mean ----

  // What a group says about address i.
  function Hit(g: Group, i: nat): multiset<Tlv> {
    if g.lo <= i < g.lo + |g.values| then multiset{Tlv(g.kind, g.values[i - g.lo])} else multiset{}
  }

  // The TLVs that the groups give to address i.
  function Meaning(groups: seq<Group>, i: nat): multiset<Tlv> {
    if groups == [] then multiset{} else Meaning(groups[..|groups| - 1], i) + Hit(groups[|groups| - 1], i)
  }

  lemma MeaningSnoc(groups: seq<Group>, g: Group, i: nat)
    ensures Meaning(groups + [g], i) == Meaning(groups, i) + Hit(g, i)
  {
    assert (groups + [g])[..|groups|] == groups;
  }

  lemma {:induction false} MeaningConcat(a: seq<Group>, b: seq<Group>, i: nat)
    ensures Meaning(a + b, i) == Meaning(a, i) + Meaning(b, i)
  {
    hide Hit;
    if b == [] {
      assert a + b == a;
    } else {
      var n := |b| - 1;
      MeaningConcat(a, b[..n], i);
      MeaningSnoc(a + b[..n], b[n], i);
      assert a + b == a + b[..n] + [b[n]];
    }
  }

  lemma BothSides(x: multiset<Tlv>, g: multiset<Tlv>, y: multiset<Tlv>, h: multiset<Tlv>, more: multiset<Tlv>)
    requires x + g == y + h
    ensures x + more + g == y + more + h
  {
    assert x + more + g == (x + g) + more;
  }

  lemma {:induction false} MeaningUpdate(groups: seq<Group>, k: nat, g: Group, i: nat)
    requires k < |groups|
    ensures Meaning(groups[k := g], i) + Hit(groups[k], i) == Meaning(groups, i) + Hit(g, i)
  {
    hide Hit;
    var n := |groups| - 1;
    if k < n {
      MeaningUpdate(groups[..n], k, g, i);
      MeaningSnoc(groups[..n][k := g], groups[n], i);
      assert groups[k := g] == groups[..n][k := g] + [groups[n]];
      BothSides(Meaning(groups[..n][k := g], i), Hit(groups[k], i), Meaning(groups[..n], i), Hit(g, i),
                Hit(groups[n], i));
    } else {
      MeaningSnoc(groups[..n], g, i);
      assert groups[k := g] == groups[..n] + [g];
    }
  }

  function GroupsBytes(groups: seq<Group>, n: nat): seq<byte>
    requires n < 256 && AllGrouped(groups, n)
  {
    if groups == [] then [] else GroupsBytes(groups[..|groups| - 1], n) + GroupBytes(groups[|groups| - 1], n)
  }
}
