// Reading and writing numbers of up to 56 bits.
module Bitstream {
  import opened Arith
  import opened Basics

  const MAX_BITS: int := 56

  lemma EightBits()
    ensures Pow2(8) == 256
  {
  }

  // a | b, for n bits
  function Or(a: nat, b: nat, n: nat): nat {
    if n == 0 then 0
    else 2 * Or(a / 2, b / 2, n - 1) + (if a % 2 == 1 || b % 2 == 1 then 1 else 0)
  }

  lemma {:induction false} OrZero(a: nat, n: nat)
    requires a < Pow2(n)
    ensures Or(a, 0, n) == Or(0, a, n) == a
  {
    if n > 0 {
      OrZero(a / 2, n - 1);
    }
  }

  lemma HalfMultiple(a: nat, k: nat)
    requires k > 0 && a % Pow2(k) == 0
    ensures a % 2 == 0 && (a / 2) % Pow2(k - 1) == 0
  {
    var p := Pow2(k - 1);
    Division(a, Pow2(k));
    var q := a / Pow2(k);
    assert a == 2 * p * q == 2 * (p * q);
    QuotientIs(a / 2, p, q, 0);
  }

  // Numbers without common bits: | is +.
  lemma {:induction false} OrDisjoint(a: nat, b: nat, k: nat, n: nat)
    requires k <= n && a % Pow2(k) == 0 && a < Pow2(n) && b < Pow2(k)
    ensures Or(a, b, n) == a + b
  {
    if k == 0 {
      OrZero(a, n);
    } else {
      HalfMultiple(a, k);
      OrDisjoint(a / 2, b / 2, k - 1, n - 1);
    }
  }

  // The number that a sequence of bytes stands for, the first byte being the highest.
  function Number(s: seq<byte>): nat {
    if s == [] then 0 else Number(s[..|s| - 1]) * 256 + s[|s| - 1]
  }

  // Adding x to byte i.
  lemma {:induction false} NumberBump(s: seq<byte>, i: nat, x: nat)
    requires i < |s| && s[i] + x < 256
    ensures Number(s[i := s[i] + x]) == Number(s) + x * Pow2(8 * (|s| - 1 - i))
  {
    var n := |s| - 1;
    if i < n {
      NumberBump(s[..n], i, x);
      assert s[i := s[i] + x][..n] == s[..n][i := s[i] + x];
      Pow2Sum(8 * (n - 1 - i), 8);
      EightBits();
      BumpShift(x, Pow2(8 * (n - 1 - i)));
    } else {
      assert s[i := s[i] + x][..n] == s[..n];
    }
  }

  lemma BumpShift(x: nat, p: nat)
    ensures x * p * 256 == x * (p * 256)
  {
  }

  // The number of bytes that hold the first k bits.
  function Bytes(k: nat): nat {
    (k + 7) / 8
  }

  // The number formed by the first k bits.
  function Prefix(s: seq<byte>, k: nat): nat
    requires k <= 8 * |s|
  {
    Shifted(Number(s[..Bytes(k)]), 8 * Bytes(k) - k)
  }

  // No bit is set behind the first k.
  predicate ZeroFrom(s: seq<byte>, k: nat) {
    && (forall i :: k / 8 < i < |s| ==> s[i] == 0)
    && (k / 8 < |s| ==> s[k / 8] % Pow2(8 - k % 8) == 0)
  }

  lemma {:induction false} NumberZeros(s: seq<byte>, m: nat, c: nat)
    requires m <= c <= |s| && forall i :: m <= i < c ==> s[i] == 0
    ensures Number(s[..c]) == Number(s[..m]) * Pow2(8 * (c - m))
    decreases c
  {
    if m < c {
      NumberZeros(s, m, c - 1);
      assert s[..c][..c - 1] == s[..c - 1];
      Pow2Sum(8 * (c - 1 - m), 8);
      EightBits();
      BumpShift(Number(s[..m]), Pow2(8 * (c - 1 - m)));
    }
  }

  lemma BackZeros(s: seq<byte>, k: nat)
    requires ZeroFrom(s, k) && k <= 8 * |s|
    ensures Number(s[..Bytes(k)]) % Pow2(8 * Bytes(k) - k) == 0
  {
    var m := Bytes(k);
    var e := 8 * m - k;
    if e > 0 {
      assert s[..m][..m - 1] == s[..m - 1];
      LastMultiple(Number(s[..m - 1]), s[m - 1], e);
    } else {
      QuotientIs(Number(s[..m]), 1, Number(s[..m]), 0);
    }
  }

  // The bytes up to c hold the first k bits and zeros.
  lemma PrefixZeros(s: seq<byte>, k: nat, c: nat)
    requires ZeroFrom(s, k) && k <= 8 * c && c <= |s|
    ensures Number(s[..c]) == Prefix(s, k) * Pow2(8 * c - k)
  {
    var m := Bytes(k);
    NumberZeros(s, m, c);
    var e := 8 * m - k;
    var x := Number(s[..m]);
    BackZeros(s, k);
    hide Pow2;
    Division(x, Pow2(e));
    Pow2Sum(e, 8 * (c - m));
    Regroup(x / Pow2(e), Pow2(e), Pow2(8 * (c - m)));
  }

  lemma Regroup(q: nat, p: nat, r: nat)
    ensures p * q * r == q * (p * r)
  {
  }

  lemma LastMultiple(h: nat, b: nat, e: nat)
    requires e <= 8 && b % Pow2(e) == 0
    ensures (h * 256 + b) % Pow2(e) == 0
  {
    hide Pow2;
    Division(b, Pow2(e));
    Pow2Sum(8 - e, e);
    EightBits();
    var q := b / Pow2(e);
    assert h * 256 + b == Pow2(e) * (h * Pow2(8 - e) + q) by {
      Distribute(h, Pow2(8 - e), Pow2(e), q);
    }
    QuotientIs(h * 256 + b, Pow2(e), h * Pow2(8 - e) + q, 0);
  }

  lemma Distribute(h: nat, a: nat, p: nat, q: nat)
    ensures p * (h * a + q) == h * (a * p) + p * q
  {
  }

  // The low bytes of x, one more.
  lemma LowBytes(x: nat, j: nat)
    ensures x % Pow2(8 * (j + 1)) == x % Pow2(8 * j) + Piece(x, j) * Pow2(8 * j)
    ensures Shifted(x, 8 * (j + 1)) == Shifted(x, 8 * j) / 256
  {
    var p := Pow2(8 * j);
    Pow2Sum(8 * j, 8);
    EightBits();
    Division(x, p);
    var q := Shifted(x, 8 * j);
    LowSplit(x, p, q / 256, q % 256, x % p);
    QuotientIs(x, p * 256, q / 256, (q % 256) * p + x % p);
  }

  lemma LowSplit(x: nat, p: nat, h: nat, l: nat, r: nat)
    requires p > 0 && x == p * (h * 256 + l) + r && l < 256 && r < p
    ensures x == p * 256 * h + (l * p + r) && l * p + r < p * 256
  {
    assert l * p <= 255 * p;
  }

  // A shifted value is small when the value is.
  lemma ShiftedSmall(x: nat, m: nat, n: nat)
    requires x < Pow2(m + n)
    ensures Shifted(x, m) < Pow2(n)
  {
    Pow2Sum(m, n);
    QuotientBelow(x, Pow2(m), Pow2(n));
  }

  // What the bytes off..c are like when j of them have been written, from the last one on.
  predicate Writing(before: seq<byte>, s: seq<byte>, off: nat, c: nat, x: nat, j: nat) {
    && off < c <= |s| == |before| && j <= c - off
    && (forall i :: 0 <= i < |s| && !(c - j <= i < c) ==> s[i] == before[i])
    && Number(s[..c]) == Number(before[..c]) + x % Pow2(8 * j)
    && (j > 0 ==> s[c - 1] == before[c - 1] + x % 256)
    && (j == c - off ==> s[off] == before[off] + Shifted(x, 8 * (c - off - 1)))
  }

  // The byte that is written as the j-th one.
  function Piece(x: nat, j: nat): nat {
    Shifted(x, 8 * j) % 256
  }

  lemma FirstByte(a: nat, y: nat, k: nat)
    requires 0 < k <= 8 && a < 256 && a % Pow2(k) == 0 && y < Pow2(k)
    ensures y < 256 && a + y < 256 && Or(a, y, 8) == a + y
  {
    Pow2Order(k, 8);
    EightBits();
    OrDisjoint(a, y, k, 8);
    SumBound(a, y, k);
  }

  lemma LaterByte(y: nat)
    requires y < 256
    ensures Or(0, y, 8) == y
  {
    EightBits();
    OrZero(y, 8);
  }

  // The next byte to be written has no bits in common with what it gets.
  lemma NextByte(before: seq<byte>, o: nat, c: nat, x: nat, j: nat)
    requires ZeroFrom(before, o) && o / 8 < c <= |before| && j < c - o / 8 && x < Pow2(8 * (c - o / 8) - o % 8)
    ensures var i := c - 1 - j;
      && before[i] + Piece(x, j) < 256 && Or(before[i], Piece(x, j), 8) == before[i] + Piece(x, j)
      && (i == o / 8 ==> Piece(x, j) == Shifted(x, 8 * j))
  {
    hide Pow2, Or, Shifted;
    if c - 1 - j > o / 8 {
      LaterByte(Piece(x, j));
    } else {
      var k := 8 - o % 8;
      assert 8 * (c - o / 8) - o % 8 == 8 * j + k;
      ShiftedSmall(x, 8 * j, k);
      FirstByte(before[o / 8], Shifted(x, 8 * j), k);
    }
  }

  lemma SumBound(a: nat, b: nat, k: nat)
    requires k <= 8 && a < 256 && a % Pow2(k) == 0 && b < Pow2(k)
    ensures a + b < 256
  {
    hide Pow2;
    Pow2Sum(8 - k, k);
    EightBits();
    Division(a, Pow2(k));
    QuotientBelow(a, Pow2(k), Pow2(8 - k));
    TimesOrder(Pow2(k), a / Pow2(k) + 1, Pow2(8 - k));
  }

  lemma LowBytesFirst(x: nat)
    ensures Piece(x, 0) == x % 256
  {
    assert Pow2(0) == 1;
    QuotientIs(x, 1, x, 0);
  }

  lemma WritingStep(before: seq<byte>, s: seq<byte>, s': seq<byte>, o: nat, c: nat, x: nat, j: nat)
    requires ZeroFrom(before, o) && Writing(before, s, o / 8, c, x, j) && j < c - o / 8
    requires x < Pow2(8 * (c - o / 8) - o % 8)
    requires before[c - 1 - j] + Piece(x, j) < 256 && s' == s[c - 1 - j := before[c - 1 - j] + Piece(x, j)]
    ensures Writing(before, s', o / 8, c, x, j + 1)
  {
    hide Pow2, Shifted, Number, ZeroFrom, Piece;
    NextByte(before, o, c, x, j);
    LowBytes(x, j);
    LowBytesFirst(x);
    BumpPrefix(s, s', c, c - 1 - j, Piece(x, j));
  }

  lemma BumpPrefix(s: seq<byte>, s': seq<byte>, c: nat, i: nat, y: nat)
    requires i < c <= |s| && s[i] + y < 256 && s' == s[i := s[i] + y]
    ensures Number(s'[..c]) == Number(s[..c]) + y * Pow2(8 * (c - 1 - i))
  {
    NumberBump(s[..c], i, y);
    assert s'[..c] == s[..c][i := s[..c][i] + y];
  }

  lemma WritingStart(before: seq<byte>, off: nat, c: nat, x: nat)
    requires off < c <= |before|
    ensures Writing(before, before, off, c, x, 0) && Shifted(x, 0) == x
  {
    assert Pow2(0) == 1;
    QuotientIs(x, 1, x, 0);
  }

  lemma WholeRemainder(x: nat, n: nat, m: nat)
    requires x < Pow2(n) && n <= m
    ensures x % Pow2(m) == x
  {
    Pow2Order(n, m);
    QuotientIs(x, Pow2(m), 0, x);
  }

  lemma ShiftedSum(n: nat, p: nat, w: nat, v: nat, e: nat)
    requires n == p * Pow2(w + e) + v * Pow2(e)
    ensures Shifted(n, e) == p * Pow2(w) + v
  {
    Pow2Sum(w, e);
    JoinParts(p, Pow2(w), Pow2(e), v);
    QuotientIs(n, Pow2(e), p * Pow2(w) + v, 0);
  }

  // All bytes have been written: the new bits are behind the old ones.
  lemma WrittenPrefix(before: seq<byte>, s: seq<byte>, o: nat, w: nat, v: nat, x: nat, c: nat, e: nat)
    requires ZeroFrom(before, o) && 0 < w && c == Bytes(o + w) <= |before| && e == 8 * c - (o + w) && v < Pow2(w)
    requires x == v * Pow2(e) && Writing(before, s, o / 8, c, x, c - o / 8)
    ensures Prefix(s, o + w) == Prefix(before, o) * Pow2(w) + v
  {
    hide Pow2, Number, ZeroFrom, Prefix, Shifted, Piece, Or;
    ScaledBound(v, w, e);
    PrefixZeros(before, o, c);
    WholeRemainder(x, w + e, 8 * (c - o / 8));
    assert 8 * c - o == w + e;
    ShiftedSum(Number(s[..c]), Prefix(before, o), w, v, e);
    PrefixIs(s, o + w, c);
  }

  lemma PrefixIs(s: seq<byte>, k: nat, c: nat)
    requires k <= 8 * |s| && c == Bytes(k)
    ensures Prefix(s, k) == Shifted(Number(s[..c]), 8 * c - k)
  {
  }

  lemma JoinParts(p: nat, a: nat, b: nat, v: nat)
    ensures p * (a * b) + v * b == b * (p * a + v)
  {
  }

  lemma ScaledBound(v: nat, w: nat, e: nat)
    requires v < Pow2(w)
    ensures v * Pow2(e) < Pow2(w + e)
  {
    Pow2Sum(w, e);
    TimesOrder(Pow2(e), v + 1, Pow2(w));
  }

  // No bit is set behind the new ones.
  lemma WrittenZeros(before: seq<byte>, s: seq<byte>, o: nat, w: nat, v: nat, x: nat, c: nat, e: nat)
    requires ZeroFrom(before, o) && 0 < w && c == Bytes(o + w) <= |before| && e == 8 * c - (o + w)
    requires x == v * Pow2(e) && Writing(before, s, o / 8, c, x, c - o / 8)
    ensures ZeroFrom(s, o + w)
  {
    hide Pow2, Number, Shifted, Prefix, Piece, Or;
    ZeroBytes(before, o, s, c);
    if e > 0 {
      assert (o + w) / 8 == c - 1 && 8 - (o + w) % 8 == e;
      LowMultiple(v, x, e);
      if c - 1 > o / 8 {
        assert before[c - 1] == 0;
      } else {
        MultipleLess(before[c - 1], 8 - o % 8, e);
        SumMultiple(before[c - 1], x % 256, e);
      }
      ZeroAt(s, o + w, c - 1, e);
    } else {
      QuotientIs(0, Pow2(8), 0, 0);
      ZeroAt(s, o + w, c, 8);
    }
  }

  lemma ZeroBytes(before: seq<byte>, o: nat, s: seq<byte>, c: nat)
    requires ZeroFrom(before, o) && o < 8 * c && |s| == |before|
    requires forall i :: c <= i < |s| ==> s[i] == before[i]
    ensures forall i :: c <= i < |s| ==> s[i] == 0
  {
    hide Pow2;
  }

  lemma ZeroAt(s: seq<byte>, k: nat, m: nat, e: nat)
    requires m == k / 8 && e == 8 - k % 8 && forall i :: m < i < |s| ==> s[i] == 0
    requires m < |s| ==> s[m] % Pow2(e) == 0
    ensures ZeroFrom(s, k)
  {
    hide Pow2;
  }

  lemma LowMultiple(v: nat, x: nat, e: nat)
    requires e <= 8 && x == v * Pow2(e)
    ensures (x % 256) % Pow2(e) == 0
  {
    Pow2Sum(e, 8 - e);
    EightBits();
    var q := Pow2(8 - e);
    Division(v, q);
    LowFactor(v, q, Pow2(e));
    QuotientIs(x, 256, v / q, (v % q) * Pow2(e));
    QuotientIs(x % 256, Pow2(e), v % q, 0);
  }

  lemma LowFactor(v: nat, q: nat, p: nat)
    requires p > 0 && q > 0 && p * q == 256
    ensures v * p == 256 * (v / q) + (v % q) * p && (v % q) * p < 256
  {
    Division(v, q);
    assert v * p == (q * (v / q) + v % q) * p == q * (v / q) * p + (v % q) * p;
    Regroup(v / q, q, p);
    assert q * (v / q) * p == (p * q) * (v / q);
    TimesOrder(p, v % q + 1, q);
  }

  lemma MultipleLess(a: nat, m: nat, n: nat)
    requires n <= m && a % Pow2(m) == 0
    ensures a % Pow2(n) == 0
  {
    Pow2Sum(m - n, n);
    Division(a, Pow2(m));
    hide Pow2;
    FactorMultiple(a, a / Pow2(m), Pow2(m - n), Pow2(n));
  }

  lemma FactorMultiple(a: nat, q: nat, p: nat, r: nat)
    requires r > 0 && a == p * r * q
    ensures a % r == 0
  {
    Swap(q, p, r);
    QuotientIs(a, r, p * q, 0);
  }

  lemma Swap(q: nat, p: nat, r: nat)
    ensures p * r * q == r * (p * q)
  {
  }

  lemma SumMultiple(a: nat, b: nat, n: nat)
    requires a % Pow2(n) == 0 && b % Pow2(n) == 0
    ensures (a + b) % Pow2(n) == 0
  {
    Division(a, Pow2(n));
    Division(b, Pow2(n));
    QuotientIs(a + b, Pow2(n), a / Pow2(n) + b / Pow2(n), 0);
  }

  // The bits in front of the new ones stay.
  lemma WrittenKeeps(before: seq<byte>, s: seq<byte>, o: nat, w: nat, x: nat, c: nat, k: nat)
    requires ZeroFrom(before, o) && 0 < w && c == Bytes(o + w) <= |before| && k <= o
    requires x < Pow2(8 * (c - o / 8) - o % 8) && Writing(before, s, o / 8, c, x, c - o / 8)
    ensures Prefix(s, k) == Prefix(before, k)
  {
    hide Pow2, Number, Shifted;
    var off := o / 8;
    if Bytes(k) <= off {
      assert s[..Bytes(k)] == before[..Bytes(k)];
    } else {
      var y, t := Shifted(x, 8 * (c - off - 1)), 8 - o % 8;
      assert 8 * (c - o / 8) - o % 8 == 8 * (c - off - 1) + t;
      ShiftedSmall(x, 8 * (c - off - 1), t);
      SharedByte(before, s, off, y, t, k);
    }
  }

  // The new bits in a byte that is in use already are behind its first ones.
  lemma SharedByte(before: seq<byte>, s: seq<byte>, off: nat, y: nat, t: nat, k: nat)
    requires |s| == |before| && Bytes(k) == off + 1 <= |s| && t <= 8 * (off + 1) - k && y < Pow2(t)
    requires s[off] == before[off] + y && forall i :: 0 <= i < off ==> s[i] == before[i]
    requires t <= 8 && before[off] % Pow2(t) == 0
    ensures Prefix(s, k) == Prefix(before, k)
  {
    hide Pow2, Number, Shifted;
    NumberLast(before[..off + 1], s[..off + 1], off, y);
    LastByteMultiple(before, off, t);
    ShiftedKeeps(Number(before[..off + 1]), y, t, 8 * (off + 1) - k);
  }

  lemma NumberLast(a: seq<byte>, b: seq<byte>, n: nat, y: nat)
    requires |a| == |b| == n + 1 && b[n] == a[n] + y && forall i :: 0 <= i < n ==> b[i] == a[i]
    ensures Number(b) == Number(a) + y
  {
    assert a[..n] == b[..n];
  }

  lemma LastByteMultiple(s: seq<byte>, n: nat, t: nat)
    requires n < |s| && t <= 8 && s[n] % Pow2(t) == 0
    ensures Number(s[..n + 1]) % Pow2(t) == 0
  {
    assert s[..n + 1][..n] == s[..n];
    LastMultiple(Number(s[..n]), s[n], t);
  }

  lemma ShiftedKeeps(a: nat, y: nat, t: nat, m: nat)
    requires t <= m && a % Pow2(t) == 0 && y < Pow2(t)
    ensures Shifted(a + y, m) == Shifted(a, m)
  {
    Pow2Sum(m - t, t);
    var p, q := Pow2(t), Pow2(m - t);
    Division(a, p);
    var h := a / p;
    Division(h, q);
    var g, r := h / q, h % q;
    KeepSplit(a, p, q, g, r, y);
    QuotientIs(a, Pow2(m), g, p * r);
    QuotientIs(a + y, Pow2(m), g, p * r + y);
  }

  lemma KeepSplit(a: nat, p: nat, q: nat, g: nat, r: nat, y: nat)
    requires p > 0 && a == p * (q * g + r) && r < q && y < p
    ensures a == q * p * g + p * r && p * r + y < q * p
  {
    assert p * (q * g + r) == p * (q * g) + p * r;
    assert p * (q * g) == q * p * g;
    TimesOrder(p, r + 1, q);
    assert p * (r + 1) == p * r + p;
  }

  // ---- streams ----

  class Writer {
    const buffer: array<byte>
    var bitOffset: nat

    // Bit positions fit into 32 bits.
    ghost predicate Valid()
      reads this, buffer
    {
      8 * buffer.Length + 64 < 0x1_0000_0000 && bitOffset <= 8 * buffer.Length && ZeroFrom(buffer[..], bitOffset)
    }

    // bitstream_w_init
    constructor (buffer: array<byte>)
      requires 8 * buffer.Length + 64 < 0x1_0000_0000
      modifies buffer
      ensures Valid() && this.buffer == buffer && bitOffset == 0
    {
      this.buffer, bitOffset := buffer, 0;
      new;
      forall i | 0 <= i < buffer.Length {
        buffer[i] := 0;
      }
      ZeroMultiple();
    }

    // bitstream_w_write: the low bits of src are put behind the bits there are.
    method Write(src: nat, bits: int) returns (r: int)
      requires Valid() && src < Pow2(64)
      modifies this, buffer
      ensures Valid()
      ensures r == (if bits > MAX_BITS || (bits > 0 && old(bitOffset) + bits > 8 * buffer.Length) then -1 else 0)
      ensures r == -1 || bits <= 0 ==> bitOffset == old(bitOffset) && buffer[..] == old(buffer[..])
      ensures r == 0 && bits > 0 ==>
        && bitOffset == old(bitOffset) + bits
        && Prefix(buffer[..], bitOffset) == Prefix(old(buffer[..]), old(bitOffset)) * Pow2(bits) + src % Pow2(bits)
      ensures forall k :: 0 <= k <= old(bitOffset) ==> Prefix(buffer[..], k) == Prefix(old(buffer[..]), k)
    {
      hide Prefix, Pow2, ZeroFrom;
      if bits <= 0 {
        return 0;
      }
      if bits > MAX_BITS {
        return -1;
      }
      var bitStart := bitOffset % 0x1_0000_0000;
      var bitEnd := bitStart + bits;
      var offset := bitStart / 8;
      var size := (bitEnd + 7) / 8 - offset;
      if offset + size > buffer.Length {
        return -1;
      }
      Append(src, bits, bitEnd, offset, size);
      r := 0;
    }

    method Append(src: nat, bits: nat, bitEnd: nat, offset: nat, size: nat)
      requires Valid() && 0 < bits && bitEnd == bitOffset + bits && offset == bitOffset / 8 && size > 0
      requires offset + size == Bytes(bitEnd) <= buffer.Length
      modifies this, buffer
      ensures Valid() && bitOffset == old(bitOffset) + bits
      ensures Prefix(buffer[..], bitOffset) == Prefix(old(buffer[..]), old(bitOffset)) * Pow2(bits) + src % Pow2(bits)
      ensures forall k :: 0 <= k <= old(bitOffset) ==> Prefix(buffer[..], k) == Prefix(old(buffer[..]), k)
    {
      hide ZeroFrom, Prefix, Writing, Pow2;
      ghost var before, o := buffer[..], bitOffset;
      bitOffset := bitOffset + bits;
      // mask the input and shift it to its place in the last byte
      var v := src % Pow2(bits);
      var e := (8 - bitEnd % 8) % 8;
      ScaledBound(v, bits, e);
      LastBits(o, bits);
      WriteBytes(v * Pow2(e), offset, size, o);
      Finished(before, buffer[..], o, bits, v, v * Pow2(e), e);
    }

    // The loop that writes the bytes, from the last one on.
    method WriteBytes(value: nat, offset: nat, size: nat, ghost o: nat)
      requires offset == o / 8 && 0 < size && offset + size <= buffer.Length && ZeroFrom(buffer[..], o)
      requires value < Pow2(8 * size - o % 8)
      modifies buffer
      ensures Writing(old(buffer[..]), buffer[..], offset, offset + size, value, size)
    {
      hide Shifted, Pow2, ZeroFrom, Number, Or;
      ghost var before, c := buffer[..], offset + size;
      WritingStart(before, offset, c, value);
      var src, rest := value, size;
      while rest > 0
        invariant 0 <= rest <= size && src == Shifted(value, 8 * (size - rest))
        invariant Writing(before, buffer[..], offset, c, value, size - rest)
      {
        ghost var s, j := buffer[..], size - rest;
        rest := rest - 1;
        NextByte(before, o, c, value, j);
        buffer[offset + rest] := Or(buffer[offset + rest], src % 256, 8);
        WritingStep(before, s, buffer[..], o, c, value, j);
        LowBytes(value, j);
        src := src / 256;
      }
    }

    // bitstream_w_pad
    method Pad()
      requires Valid()
      modifies this`bitOffset
      ensures Valid() && bitOffset == (old(bitOffset) + 7) / 8 * 8
    {
      var bits := bitOffset % 8;
      if bits > 0 {
        bitOffset := bitOffset - bits + 8;
        ZeroMultiple();
      }
    }
  }

  lemma LastBits(o: nat, w: nat)
    ensures (8 - (o + w) % 8) % 8 == 8 * Bytes(o + w) - (o + w)
    ensures w + (8 * Bytes(o + w) - (o + w)) == 8 * (Bytes(o + w) - o / 8) - o % 8
  {
  }

  lemma ZeroMultiple()
    ensures forall k :: 0 <= k <= 8 ==> Pow2(k) > 0 && 0 % Pow2(k) == 0
  {
  }

  lemma Finished(before: seq<byte>, s: seq<byte>, o: nat, w: nat, v: nat, x: nat, e: nat)
    requires ZeroFrom(before, o) && 0 < w && o + w <= 8 * |before| == 8 * |s| && e == 8 * Bytes(o + w) - (o + w)
    requires v < Pow2(w) && x == v * Pow2(e) && Writing(before, s, o / 8, Bytes(o + w), x, Bytes(o + w) - o / 8)
    ensures ZeroFrom(s, o + w) && Prefix(s, o + w) == Prefix(before, o) * Pow2(w) + v
    ensures forall k :: 0 <= k <= o ==> Prefix(s, k) == Prefix(before, k)
  {
    hide Writing, ZeroFrom, Prefix, Pow2, Number, Shifted;
    LastBits(o, w);
    var c := Bytes(o + w);
    WrittenPrefix(before, s, o, w, v, x, c, e);
    WrittenZeros(before, s, o, w, v, x, c, e);
    ScaledBound(v, w, e);
    forall k | 0 <= k <= o
      ensures Prefix(s, k) == Prefix(before, k)
    {
      WrittenKeeps(before, s, o, w, x, c, k);
    }
  }

  // ---- reading ----

  lemma RemainderGrows(n: nat, m: nat, b: nat)
    requires b < 256
    ensures (n * 256 + b) % Pow2(m + 8) == (n % Pow2(m)) * 256 + b
  {
    Pow2Sum(m, 8);
    EightBits();
    var p := Pow2(m);
    Division(n, p);
    GrowSplit(n, p, n / p, n % p, b);
    QuotientIs(n * 256 + b, p * 256, n / p, (n % p) * 256 + b);
  }

  lemma GrowSplit(n: nat, p: nat, q: nat, r: nat, b: nat)
    requires n == p * q + r && r < p && b < 256
    ensures n * 256 + b == p * 256 * q + (r * 256 + b) && r * 256 + b < p * 256
  {
    assert p * q * 256 == p * 256 * q;
  }

  // Masking and shifting can be exchanged.
  lemma MaskShift(n: nat, w: nat, e: nat)
    ensures Shifted(n % Pow2(w + e), e) == Shifted(n, e) % Pow2(w)
  {
    Pow2Sum(w, e);
    var p, q := Pow2(e), Pow2(w);
    Division(n, p);
    var h := n / p;
    Division(h, q);
    KeepSplit(n - n % p, p, q, h / q, h % q, n % p);
    QuotientIs(n, q * p, h / q, p * (h % q) + n % p);
    QuotientIs(p * (h % q) + n % p, p, h % q, n % p);
  }

  class Reader {
    const buffer: array<byte>
    var bitOffset: nat

    // bitstream_r_init
    constructor (buffer: array<byte>)
      ensures this.buffer == buffer && bitOffset == 0
    {
      this.buffer, bitOffset := buffer, 0;
    }

    // bitstream_r_read
    method Read(bits: int) returns (r: int, dst: nat)
      modifies this
      ensures r == (if bits > MAX_BITS || (bits > 0 && old(bitOffset) + bits > 8 * buffer.Length) then -1 else 0)
      ensures r == 0 && bits > 0 ==>
        bitOffset == old(bitOffset) + bits && dst == Prefix(buffer[..], bitOffset) % Pow2(bits)
      ensures r == 0 && bits <= 0 ==> dst == 0
      ensures r == -1 || bits <= 0 ==> bitOffset == old(bitOffset)
    {
      hide Number, Prefix, Pow2, Shifted;
      dst := 0;
      if bits <= 0 {
        return 0, 0;
      }
      if bits > MAX_BITS {
        return -1, 0;
      }
      var bitStart, bitEnd := bitOffset, bitOffset + bits;
      var offset := bitStart / 8;
      var size := (bitEnd + 7) / 8 - offset;
      if offset + size > buffer.Length {
        return -1, 0;
      }
      bitOffset := bitOffset + bits;
      var result := ReadBytes(offset, size, bitStart % 8);
      var e := (8 - bitEnd % 8) % 8;
      LastBits(bitStart, bits);
      MaskShift(Number(buffer[..offset + size]), bits, e);
      PrefixIs(buffer[..], bitEnd, offset + size);
      dst := Shifted(result, e);
      r := 0;
    }

    // The loop that collects the bytes.
    method ReadBytes(offset: nat, size: nat, bitStart: nat) returns (result: nat)
      requires 0 < size <= 8 && offset + size <= buffer.Length && bitStart < 8
      ensures result == Number(buffer[..offset + size]) % Pow2(8 * size - bitStart)
    {
      hide Number, Pow2;
      // the first byte without the bits that have been read
      result := buffer[offset] % Pow2(8 - bitStart);
      FirstMasked(buffer[..], offset, 8 - bitStart);
      var i := 1;
      while i < size
        invariant 1 <= i <= size && result == Number(buffer[..offset + i]) % Pow2(8 * i - bitStart)
      {
        NextMasked(buffer[..], offset + i, 8 * i - bitStart);
        // the result stays below 64 bits
        Fits(result, 8 * i - bitStart);
        result := (result * 256) % Pow2(64) + buffer[offset + i];
        i := i + 1;
      }
    }

    // bitstream_r_pad
    method Pad()
      modifies this`bitOffset
      ensures bitOffset == (old(bitOffset) + 7) / 8 * 8
    {
      var bits := bitOffset % 8;
      if bits > 0 {
        bitOffset := bitOffset - bits + 8;
      }
    }
  }

  lemma FirstMasked(s: seq<byte>, offset: nat, k: nat)
    requires offset < |s| && 0 < k <= 8
    ensures Number(s[..offset + 1]) % Pow2(k) == s[offset] % Pow2(k)
  {
    hide Pow2, Prefix;
    assert s[..offset + 1][..offset] == s[..offset];
    var h, b, p := Number(s[..offset]), s[offset], Pow2(k);
    Pow2Sum(8 - k, k);
    EightBits();
    Division(b, p);
    FirstSplit(h, Pow2(8 - k), p, b, b / p, b % p);
    QuotientIs(h * 256 + b, p, h * Pow2(8 - k) + b / p, b % p);
  }

  lemma FirstSplit(h: nat, a: nat, p: nat, b: nat, q: nat, r: nat)
    requires a * p == 256 && b == p * q + r
    ensures h * 256 + b == p * (h * a + q) + r
  {
    assert h * (a * p) == p * (h * a);
  }

  lemma NextMasked(s: seq<byte>, i: nat, m: nat)
    requires i < |s|
    ensures Number(s[..i + 1]) % Pow2(m + 8) == (Number(s[..i]) % Pow2(m)) * 256 + s[i]
  {
    assert s[..i + 1][..i] == s[..i];
    RemainderGrows(Number(s[..i]), m, s[i]);
  }

  lemma Fits(r: nat, m: nat)
    requires m <= 56 && r < Pow2(m)
    ensures (r * 256) % Pow2(64) == r * 256
  {
    Pow2Order(m, 56);
    Pow2Sum(56, 8);
    EightBits();
    QuotientIs(r * 256, Pow2(64), 0, r * 256);
  }

  // ---- round trip ----

  datatype Op = Put(value: nat, width: int) | Align

  // Where the stream stands after an operation.
  function After(k: nat, op: Op): nat {
    match op
    case Put(_, width) => if width > 0 then k + width else k
    case Align => 8 * Bytes(k)
  }

  // ... and after the first n operations.
  function Place(ops: seq<Op>, n: nat): nat
    requires n <= |ops|
  {
    if n == 0 then 0 else After(Place(ops, n - 1), ops[n - 1])
  }

  // The value that a read of the same width returns.
  function Value(op: Op): nat {
    match op
    case Put(value, width) => if width > 0 then value % Pow2(width) else 0
    case Align => 0
  }

  // The first n values are in the buffer.
  predicate Holds(s: seq<byte>, ops: seq<Op>, n: nat)
    requires n <= |ops|
  {
    forall i :: 0 <= i < n && ops[i].Put? && ops[i].width > 0 ==>
      Place(ops, i + 1) <= 8 * |s| && Prefix(s, Place(ops, i + 1)) % Pow2(ops[i].width) == Value(ops[i])
  }

  lemma {:induction false} PlaceOrder(ops: seq<Op>, m: nat, n: nat)
    requires m <= n <= |ops|
    ensures Place(ops, m) <= Place(ops, n)
  {
    if m < n {
      PlaceOrder(ops, m, n - 1);
    }
  }

  lemma HoldsKept(before: seq<byte>, s: seq<byte>, ops: seq<Op>, n: nat)
    requires n <= |ops| && |s| == |before| && Place(ops, n) <= 8 * |s| && Holds(before, ops, n)
    requires forall k :: 0 <= k <= Place(ops, n) ==> Prefix(s, k) == Prefix(before, k)
    ensures Holds(s, ops, n)
  {
    forall i | 0 <= i < n && ops[i].Put? && ops[i].width > 0
      ensures Place(ops, i + 1) <= 8 * |s| && Prefix(s, Place(ops, i + 1)) % Pow2(ops[i].width) == Value(ops[i])
    {
      PlaceOrder(ops, i + 1, n);
    }
  }

  lemma LowPart(p: nat, w: nat, v: nat)
    requires v < Pow2(w)
    ensures (p * Pow2(w) + v) % Pow2(w) == v
  {
    QuotientIs(p * Pow2(w) + v, Pow2(w), p, v);
  }

  method WriteOne(w: Writer, ops: seq<Op>, n: nat) returns (r: int)
    requires w.Valid() && n < |ops| && w.bitOffset == Place(ops, n) && Holds(w.buffer[..], ops, n)
    requires ops[n].Put? ==> ops[n].value < Pow2(64)
    modifies w, w.buffer
    ensures w.Valid()
    ensures r == 0 ==> w.bitOffset == Place(ops, n + 1) && Holds(w.buffer[..], ops, n + 1)
    ensures r == 0 && ops[n].Put? ==> ops[n].width <= MAX_BITS
  {
    hide ZeroFrom, Prefix, Pow2, Writer.Valid;
    r := 0;
    match ops[n] {
      case Put(value, width) =>
        ghost var before := w.buffer[..];
        Within(w);
        r := w.Write(value, width);
        if r == 0 {
          Within(w);
          HoldsKept(before, w.buffer[..], ops, n);
          if width > 0 {
            Division(value, Pow2(width));
            LowPart(Prefix(before, Place(ops, n)), width, value % Pow2(width));
          }
        }
      case Align =>
        w.Pad();
    }
  }

  lemma Within(w: Writer)
    requires w.Valid()
    ensures w.bitOffset <= 8 * w.buffer.Length
  {
  }

  // All operations on a freshly initialized stream.
  method WriteAll(w: Writer, ops: seq<Op>) returns (ok: bool)
    requires w.Valid() && w.bitOffset == 0 && forall i :: 0 <= i < |ops| && ops[i].Put? ==> ops[i].value < Pow2(64)
    modifies w, w.buffer
    ensures w.Valid()
    ensures ok ==> w.bitOffset == Place(ops, |ops|) && Holds(w.buffer[..], ops, |ops|)
    ensures ok ==> forall i :: 0 <= i < |ops| && ops[i].Put? ==> ops[i].width <= MAX_BITS
  {
    var n := 0;
    while n < |ops|
      invariant 0 <= n <= |ops| && w.Valid() && w.bitOffset == Place(ops, n) && Holds(w.buffer[..], ops, n)
      invariant forall i :: 0 <= i < n && ops[i].Put? ==> ops[i].width <= MAX_BITS
    {
      hide Writer.Valid, Holds, Place, Pow2;
      var r := WriteOne(w, ops, n);
      if r != 0 {
        return false;
      }
      n := n + 1;
    }
    ok := true;
  }

  // Reading the same widths and pads gives every value back, up to its width.
  method ReadAll(r: Reader, ops: seq<Op>) returns (ok: bool, values: seq<nat>)
    requires r.bitOffset == 0 && Holds(r.buffer[..], ops, |ops|)
    requires forall i :: 0 <= i < |ops| && ops[i].Put? ==> ops[i].width <= MAX_BITS
    modifies r
    ensures ok && |values| == |ops| && forall i :: 0 <= i < |ops| ==> values[i] == Value(ops[i])
  {
    values := [];
    var n := 0;
    while n < |ops|
      invariant 0 <= n <= |ops| && r.bitOffset == Place(ops, n) && |values| == n
      invariant forall i :: 0 <= i < n ==> values[i] == Value(ops[i])
    {
      hide Prefix, Pow2;
      match ops[n] {
        case Put(_, width) =>
          var code, value := r.Read(width);
          assert code == 0;
          values := values + [value];
        case Align =>
          r.Pad();
          values := values + [0];
      }
      n := n + 1;
    }
    ok := true;
  }
}
