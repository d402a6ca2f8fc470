// Duplicate detection for wrapping sequence numbers.
module DuplicateSet {

  const MAXIMUM_TOO_OLD: nat := 8
  const UINT64_LIMIT: int := 0x1_0000_0000_0000_0000

  datatype Width = Bits8 | Bits16 | Bits32 | Bits64

  datatype Verdict = TooOld | Duplicate | New | Current | Newest | First

  // The number of different sequence numbers.
  function Modulus(w: Width): int {
    match w
    case Bits8 => 0x100
    case Bits16 => 0x1_0000
    case Bits32 => 0x1_0000_0000
    case Bits64 => UINT64_LIMIT
  }

  // The mask, which is 0 for 64 bit sequence numbers.
  function Mask(w: Width): int {
    if w == Bits64 then 0 else Modulus(w) - 1
  }

  // The cast from uint64_t to int64_t.
  function ToSigned(x: int): int
    requires 0 <= x < UINT64_LIMIT
  {
    if x < UINT64_LIMIT / 2 then x else x - UINT64_LIMIT
  }

  // The mask of a number, moved to the middle of the number range.
  function Centered(x: int, m: int): int
    requires m > 0
  {
    var masked := x % m;
    if masked > (m - 1) / 2 then masked - m else masked
  }

  // _seqno_difference; the mask of a negative number is that of its two's complement
  function Difference(w: Width, seqno1: int, seqno2: int): int
    requires 0 <= seqno1 < UINT64_LIMIT && 0 <= seqno2 < UINT64_LIMIT
  {
    var reldiff := ToSigned((seqno1 - seqno2) % UINT64_LIMIT);
    if Mask(w) == 0 then reldiff
    else
      Centered(reldiff, Mask(w) + 1)
  }

  function Times(k: int, m: int): int {
    k * m
  }

  lemma TimesSum(j: int, k: int, m: int)
    ensures Times(j + k, m) == Times(j, m) + Times(k, m)
  {
  }

  lemma TimesNegative(j: int, m: int)
    ensures Times(-j, m) == -Times(j, m) && Times(0, m) == 0 && Times(1, m) == m
  {
  }

  lemma Remainder(x: int, m: int)
    requires m > 0
    ensures x == Times(x / m, m) + x % m && 0 <= x % m < m
  {
  }

  // The number of times a narrow range fits into 64 bits.
  function Copies(w: Width): int {
    match w
    case Bits8 => 0x100_0000_0000_0000
    case Bits16 => 0x1_0000_0000_0000
    case Bits32 => 0x1_0000_0000
    case Bits64 => 1
  }

  lemma SignedDifference(seqno1: int, seqno2: int)
    requires 0 <= seqno1 < UINT64_LIMIT && 0 <= seqno2 < UINT64_LIMIT
    ensures var r := ToSigned((seqno1 - seqno2) % UINT64_LIMIT);
      && -(UINT64_LIMIT / 2) <= r < UINT64_LIMIT / 2
      && (r == seqno1 - seqno2 || r == seqno1 - seqno2 + UINT64_LIMIT || r == seqno1 - seqno2 - UINT64_LIMIT)
  {
    var d := seqno1 - seqno2;
    assert d % UINT64_LIMIT == if d < 0 then d + UINT64_LIMIT else d;
  }

  // Two numbers are equal modulo m.
  ghost predicate Congruent(x: int, y: int, m: int) {
    exists k: int :: x == y + Times(k, m)
  }

  lemma CongruentSum(x: int, y: int, z: int, m: int)
    requires Congruent(x, y, m) && Congruent(y, z, m)
    ensures Congruent(x, z, m)
  {
    var j: int :| x == y + Times(j, m);
    var k: int :| y == z + Times(k, m);
    TimesSum(j, k, m);
  }

  lemma CongruentSame(x: int, m: int)
    ensures Congruent(x, x, m)
  {
    assert x == x + Times(0, m);
  }

  lemma CenteredRange(x: int, m: int)
    requires m > 0 && m % 2 == 0
    ensures -(m / 2) <= Centered(x, m) < m / 2 && Congruent(Centered(x, m), x, m)
  {
    Remainder(x, m);
    var q := x / m;
    TimesNegative(q, m);
    TimesNegative(1, m);
    TimesSum(-q, -1, m);
    hide Times;
    assert Centered(x, m) == x + Times(-q, m) || Centered(x, m) == x + Times(-q - 1, m);
  }

  // The difference is right up to the modulus, and at most half of it.
  lemma DifferenceRange(w: Width, seqno1: int, seqno2: int)
    requires 0 <= seqno1 < UINT64_LIMIT && 0 <= seqno2 < UINT64_LIMIT
    ensures -(Modulus(w) / 2) <= Difference(w, seqno1, seqno2) < Modulus(w) / 2
    ensures Congruent(Difference(w, seqno1, seqno2), seqno1 - seqno2, Modulus(w))
  {
    SignedDifference(seqno1, seqno2);
    var m, d := Modulus(w), seqno1 - seqno2;
    var reldiff := ToSigned(d % UINT64_LIMIT);
    assert Times(Copies(w), m) == UINT64_LIMIT && m % 2 == 0;
    TimesNegative(Copies(w), m);
    hide Times, ToSigned, Centered;
    assert Congruent(reldiff, d, m) by {
      CongruentSame(d, m);
      assert reldiff == d || reldiff == d + Times(Copies(w), m) || reldiff == d + Times(-Copies(w), m);
    }
    CenteredRange(reldiff, m);
    CongruentSum(Centered(reldiff, m), reldiff, d, m);
  }

  lemma CongruentClose(x: int, y: int, m: int)
    requires m > 0 && Congruent(x, y, m) && -m < x - y < m
    ensures x == y
  {
    var k: int :| x == y + Times(k, m);
    TimesGrows(k, m);
  }

  lemma TimesGrows(k: int, m: int)
    requires m > 0
    ensures (k >= 1 ==> Times(k, m) >= m) && (k <= -1 ==> Times(k, m) <= -m) && (k == 0 ==> Times(k, m) == 0)
  {
    if k >= 1 {
      assert (k - 1) * m >= 0;
    } else if k <= -1 {
      assert (k + 1) * m <= 0;
    }
  }

  // The unwrapped number that the difference leads to belongs to the sequence number.
  lemma UnwrapCongruent(w: Width, seqno1: int, seqno2: int, n2: int)
    requires 0 <= seqno1 < UINT64_LIMIT && 0 <= seqno2 < UINT64_LIMIT && Congruent(n2, seqno2, Modulus(w))
    ensures Congruent(n2 + Difference(w, seqno1, seqno2), seqno1, Modulus(w))
  {
    var m, d := Modulus(w), Difference(w, seqno1, seqno2);
    DifferenceRange(w, seqno1, seqno2);
    hide Difference, Times;
    var k: int :| n2 == seqno2 + Times(k, m);
    var l: int :| d == seqno1 - seqno2 + Times(l, m);
    TimesSum(k, l, m);
    assert n2 + d == seqno1 + Times(k + l, m);
  }

  // Rollover is eliminated: when the unwrapped numbers n1 and n2 are less than half of the number
  // range apart, their difference is found from the wrapped numbers.
  lemma DifferenceUnwraps(w: Width, seqno1: int, seqno2: int, n1: int, n2: int)
    requires 0 <= seqno1 < UINT64_LIMIT && 0 <= seqno2 < UINT64_LIMIT
    requires Congruent(n1, seqno1, Modulus(w)) && Congruent(n2, seqno2, Modulus(w))
    ensures -(Modulus(w) / 2) <= n1 - n2 < Modulus(w) / 2 <==> Difference(w, seqno1, seqno2) == n1 - n2
  {
    var m, d := Modulus(w), Difference(w, seqno1, seqno2);
    DifferenceRange(w, seqno1, seqno2);
    UnwrapCongruent(w, seqno1, seqno2, n2);
    hide Difference, Times;
    var j: int :| n1 == seqno1 + Times(j, m);
    TimesNegative(j, m);
    assert seqno1 == n1 + Times(-j, m);
    CongruentSum(n2 + d, seqno1, n1, m);
    if -(m / 2) <= n1 - n2 < m / 2 {
      CongruentClose(n2 + d, n1, m);
    }
  }

  // A 64 bit word, from the lowest bit up.
  type Word = w: seq<bool> | |w| == 64 witness seq(64, _ => false)

  const ONE: Word := [true] + seq(63, _ => false)

  // The history when the current number moves d ahead: shifted by d, or only the new number.
  function Slid(w: Word, d: nat): (r: Word)
    ensures forall i :: 0 <= i < 64 ==> r[i] == (i == 0 || (d < 32 && i >= d && w[i - d]))
  {
    if d >= 32 then ONE else seq(64, i requires 0 <= i < 64 => i == 0 || (i >= d && w[i - d]))
  }

  // What a test has been about, for the history of the tests of an entry.
  datatype Event = Same | Old | Reset | Inside | Newer

  // How many too old numbers have come since the last one that was inside the window or newer.
  function OldRun(trace: seq<Event>): nat {
    if trace == [] then 0
    else
      match trace[|trace| - 1]
      case Same => OldRun(trace[..|trace| - 1])
      case Old => OldRun(trace[..|trace| - 1]) + 1
      case Reset => 0
      case Inside => 0
      case Newer => 0
  }

  lemma OldRunStep(trace: seq<Event>, e: Event)
    ensures OldRun(trace + [e]) ==
      match e
      case Same => OldRun(trace)
      case Old => OldRun(trace) + 1
      case Reset => 0
      case Inside => 0
      case Newer => 0
  {
    assert (trace + [e])[..|trace|] == trace;
  }

  predicate NoRepeats(s: seq<int>) {
    forall i, j :: 0 <= i < j < |s| ==> s[i] != s[j]
  }

  // History bit i says whether the number i before the current one has been accepted; no number
  // has been accepted twice.
  predicate WindowOf(history: Word, unwrapped: int, accepted: seq<int>) {
    && unwrapped in accepted && NoRepeats(accepted) && (forall n :: n in accepted ==> n <= unwrapped)
    && forall i :: 0 <= i < 32 ==> (history[i] <==> unwrapped - i in accepted)
  }

  lemma WindowFirst(n: int)
    ensures WindowOf(ONE, n, [n])
  {
  }

  lemma WindowBit(history: Word, unwrapped: int, accepted: seq<int>, k: nat)
    requires WindowOf(history, unwrapped, accepted) && k < 32
    ensures history[k] <==> unwrapped - k in accepted
  {
  }

  lemma WindowInside(history: Word, unwrapped: int, accepted: seq<int>, k: nat)
    requires WindowOf(history, unwrapped, accepted) && k < 32 && !history[k]
    ensures WindowOf(history[k := true], unwrapped, accepted + [unwrapped - k])
  {
    var accepted' := accepted + [unwrapped - k];
    assert accepted'[|accepted|] == unwrapped - k;
    assert forall n :: n in accepted' <==> n in accepted || n == unwrapped - k;
  }

  lemma WindowNewer(history: Word, unwrapped: int, accepted: seq<int>, d: nat)
    requires WindowOf(history, unwrapped, accepted) && d > 0
    ensures WindowOf(Slid(history, d), unwrapped + d, accepted + [unwrapped + d])
  {
    var accepted' := accepted + [unwrapped + d];
    assert accepted'[|accepted|] == unwrapped + d && unwrapped + d !in accepted;
    assert forall n :: n in accepted' <==> n in accepted || n == unwrapped + d;
    var history' := Slid(history, d);
    forall i | 0 <= i < 32
      ensures history'[i] <==> unwrapped + d - i in accepted'
    {
      if d <= i {
        assert history[i - d] <==> unwrapped - (i - d) in accepted;
      } else {
        assert unwrapped + d - i > unwrapped;
      }
    }
  }

  class Entry {
    const width: Width
    var history: Word
    var current: int
    var tooOldCount: nat
    // the unwrapped current number, the unwrapped numbers accepted since the last reset, the past
    ghost var unwrapped: int
    ghost var accepted: seq<int>
    ghost var trace: seq<Event>

    constructor (width: Width, seqno: int)
      requires 0 <= seqno < UINT64_LIMIT
      ensures Valid() && this.width == width && current == seqno && unwrapped == seqno
      ensures accepted == [seqno] && trace == []
    {
      this.width := width;
      history, current, tooOldCount := ONE, seqno, 0;
      unwrapped, accepted, trace := seqno, [seqno], [];
      CongruentSame(seqno, Modulus(width));
      WindowFirst(seqno);
    }

    ghost predicate Window()
      reads this`history, this`unwrapped, this`accepted
    {
      WindowOf(history, unwrapped, accepted)
    }

    ghost predicate Valid()
      reads this
    {
      && 0 <= current < UINT64_LIMIT && Congruent(unwrapped, current, Modulus(width))
      && tooOldCount == OldRun(trace) <= MAXIMUM_TOO_OLD && Window()
    }

    // The unwrapped number that a sequence number stands for.
    ghost function Unwrap(seqno: int): int
      requires 0 <= seqno < UINT64_LIMIT && 0 <= current < UINT64_LIMIT
      reads this
    {
      unwrapped + Difference(width, seqno, current)
    }

    // What a test of this sequence number is about.
    ghost function Kind(seqno: int): Event
      requires 0 <= seqno < UINT64_LIMIT && 0 <= current < UINT64_LIMIT
      reads this
    {
      var n := Unwrap(seqno);
      if seqno == current then Same
      else if n < unwrapped - 31 then if OldRun(trace) < MAXIMUM_TOO_OLD then Old else Reset
      else if n <= unwrapped then Inside
      else Newer
    }

    ghost function VerdictOf(seqno: int): Verdict
      requires 0 <= seqno < UINT64_LIMIT && 0 <= current < UINT64_LIMIT
      reads this
    {
      match Kind(seqno)
      case Same => Current
      case Old => TooOld
      case Reset => Newest
      case Inside => if Unwrap(seqno) in accepted then Duplicate else New
      case Newer => Newest
    }

    // The numbers accepted afterwards.
    ghost function AcceptedWith(seqno: int, store: bool): seq<int>
      requires 0 <= seqno < UINT64_LIMIT && 0 <= current < UINT64_LIMIT
      reads this
    {
      match Kind(seqno)
      case Same => accepted
      case Old => accepted
      case Reset => [Unwrap(seqno)]
      case Inside => if store && Unwrap(seqno) !in accepted then accepted + [Unwrap(seqno)] else accepted
      case Newer => if store then accepted + [Unwrap(seqno)] else accepted
    }

    // The number becomes the current one.
    ghost predicate Moves(seqno: int, store: bool)
      requires 0 <= seqno < UINT64_LIMIT && 0 <= current < UINT64_LIMIT
      reads this
    {
      Kind(seqno) == Reset || (store && Kind(seqno) == Newer)
    }

    // A query of this number leaves the entry alone.
    predicate Harmless(seqno: int)
      requires 0 <= seqno < UINT64_LIMIT && 0 <= current < UINT64_LIMIT
      reads this
    {
      seqno == current || (tooOldCount == 0 && Difference(width, seqno, current) >= -31)
    }

    // _test. A query, with `store` false, changes the entry unless the number is the current one, or not
    // too old while none has been counted: a too old number is counted, the ninth one in a row resets
    // the entry, and any other one clears the count.
    method Test(seqno: int, store: bool) returns (r: Verdict)
      requires Valid() && 0 <= seqno < UINT64_LIMIT
      modifies this
      ensures Valid() && trace == old(trace) + [old(Kind(seqno))]
      ensures r == old(VerdictOf(seqno)) && accepted == old(AcceptedWith(seqno, store))
      ensures unwrapped == if old(Moves(seqno, store)) then old(Unwrap(seqno)) else old(unwrapped)
      ensures current == if old(Moves(seqno, store)) then seqno else old(current)
      ensures r == Current <==> seqno == old(current)
      ensures r == Duplicate ==> old(Unwrap(seqno) in accepted) && accepted == old(accepted)
      ensures r == New ==> old(Unwrap(seqno) !in accepted)
      ensures r == New && store ==> accepted == old(accepted) + [old(Unwrap(seqno))]
      ensures r == Newest && store ==> current == seqno != old(current) && old(Unwrap(seqno)) in accepted
      ensures r == TooOld <==> tooOldCount == old(tooOldCount) + 1
      ensures r != First
      ensures
        !store ==>
          (history == old(history) && current == old(current) && tooOldCount == old(tooOldCount)
           <==> old(Harmless(seqno)))
    {
      hide Difference, Congruent, Modulus, OldRun, WindowOf, Slid;
      ghost var kind, n := Kind(seqno), Unwrap(seqno);
      OldRunStep(trace, kind);
      trace := trace + [kind];
      if seqno == current {
        return Current;
      }
      // the distance to the current number, across the wrap
      var diff := Difference(width, seqno, current);
      UnwrapCongruent(width, seqno, current, unwrapped);
      CongruentSame(seqno, Modulus(width));
      if diff < -31 {
        tooOldCount := tooOldCount + 1;
        if tooOldCount > MAXIMUM_TOO_OLD {
          // a long series of too old numbers: the originator has most likely been reset
          history, tooOldCount, current := ONE, 0, seqno;
          WindowFirst(n);
          unwrapped, accepted := n, [n];
          return Newest;
        }
        return TooOld;
      }
      tooOldCount := 0;
      if diff <= 0 {
        WindowBit(history, unwrapped, accepted, -diff);
        if history[-diff] {
          return Duplicate;
        }
        if store {
          WindowInside(history, unwrapped, accepted, -diff);
          history := history[-diff := true];
          accepted := accepted + [n];
        }
        return New;
      }
      if store {
        WindowNewer(history, unwrapped, accepted, diff);
        current := seqno;
        history := Slid(history, diff);
        unwrapped, accepted := n, accepted + [n];
      }
      return Newest;
    }
  }

  // The entries by originator and message type.
  class Duplicates<Key(==)> {
    const width: Width
    var entries: map<Key, Entry>

    constructor (width: Width)
      ensures Valid() && this.width == width && entries == map[]
    {
      this.width, entries := width, map[];
    }

    ghost predicate Valid()
      reads this, entries.Values
    {
      && (forall k :: k in entries ==> entries[k].Valid() && entries[k].width == width)
      && forall j, k :: j in entries && k in entries && j != k ==> entries[j] != entries[k]
    }

    // oonf_duplicate_entry_add: a new pair gets its own entry, the other pairs are left alone.
    // The result says whether the validity timer is set again.
    method Add(key: Key, seqno: int) returns (r: Verdict, refreshed: bool)
      requires Valid() && 0 <= seqno < UINT64_LIMIT
      modifies this`entries, if key in entries then {entries[key]} else {}
      ensures Valid() && (r == First <==> key !in old(entries))
      ensures key in old(entries) ==>
        && entries == old(entries) && r == old(entries[key].VerdictOf(seqno))
        && entries[key].accepted == old(entries[key].AcceptedWith(seqno, true))
        && entries[key].trace == old(entries[key].trace) + [old(entries[key].Kind(seqno))]
      ensures key !in old(entries) ==>
        && entries.Keys == old(entries.Keys) + {key}
        && (forall k :: k in old(entries) ==> entries[k] == old(entries[k])) && fresh(entries[key])
        && entries[key].accepted == [seqno] && entries[key].trace == []
      ensures refreshed <==> r == New || r == Newest || r == First
    {
      if key !in entries {
        var entry := new Entry(width, seqno);
        entries := entries[key := entry];
        r := First;
      } else {
        r := entries[key].Test(seqno, true);
      }
      refreshed := r == New || r == Newest || r == First;
    }

    // oonf_duplicate_test: the entry stays as it is if and only if the number is harmless.
    method Check(key: Key, seqno: int) returns (r: Verdict)
      requires Valid() && 0 <= seqno < UINT64_LIMIT
      modifies if key in entries then {entries[key]} else {}
      ensures Valid() && (r == First <==> key !in entries)
      ensures key in entries ==>
        var e := entries[key];
        && r == old(e.VerdictOf(seqno)) && e.accepted == old(e.AcceptedWith(seqno, false))
        && e.trace == old(e.trace) + [old(e.Kind(seqno))]
        && (e.history == old(e.history) && e.current == old(e.current) && e.tooOldCount == old(e.tooOldCount)
            <==> old(e.Harmless(seqno)))
    {
      if key !in entries {
        r := First;
      } else {
        r := entries[key].Test(seqno, false);
      }
    }

    // _cb_vtime: an entry is forgotten when its validity has ended
    method Expire(key: Key)
      requires Valid()
      modifies this`entries
      ensures Valid() && entries == old(entries) - {key}
    {
      entries := entries - {key};
    }
  }

  // Nine queries for number 50 make it the current one of an entry that stood at 100.
  method QueriesReset() returns (e: Entry)
    ensures e.Valid() && e.current == 50 && e.accepted == [50]
  {
    e := new Entry(Bits16, 100);
    assert Difference(Bits16, 50, 100) == -50;
    for i := 0 to 8
      invariant e.Valid() && e.width == Bits16 && e.current == e.unwrapped == 100 && fresh(e)
      invariant OldRun(e.trace) == i
    {
      hide Congruent, WindowOf, Difference;
      OldRunStep(e.trace, Old);
      var _ := e.Test(50, false);
    }
    var _ := e.Test(50, false);
  }
}
