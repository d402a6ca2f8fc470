// Fixed-point numbers as text: the raw printed form and the parser.
module Isonumber {
  import opened Arith

  const UINT64_LIMIT: nat := 0x1_0000_0000_0000_0000
  const UINT64_MAX: nat := UINT64_LIMIT - 1
  const INT64_MIN: int := -0x8000_0000_0000_0000

  datatype Result<T> = Ok(value: T) | Error

  predicate Digit(c: char) {
    '0' <= c <= '9'
  }

  function DigitChar(d: nat): (c: char)
    requires d < 10
    ensures Digit(c) && c as int - '0' as int == d
  {
    (d + '0' as int) as char
  }

  predicate Digits(s: string) {
    forall i :: 0 <= i < |s| ==> Digit(s[i])
  }

  function DigitValue(c: char): nat
    requires Digit(c)
  {
    c as int - '0' as int
  }

  // The number that a sequence of digits stands for.
  function Value(s: string): nat
    requires Digits(s)
  {
    if s == [] then 0 else 10 * Value(s[..|s| - 1]) + DigitValue(s[|s| - 1])
  }

  lemma OneMore(s: string, d: nat)
    requires Digits(s) && d < 10
    ensures Digits(s + [DigitChar(d)]) && Value(s + [DigitChar(d)]) == 10 * Value(s) + d
  {
    assert (s + [DigitChar(d)])[..|s|] == s;
  }

  lemma OneDigit(d: nat)
    requires d < 10
    ensures Digits([DigitChar(d)]) && Value([DigitChar(d)]) == d
  {
    assert [DigitChar(d)][..0] == [];
  }

  // The decimal digits of a number.
  function Decimal(n: nat): (s: string)
    ensures s != [] && Digits(s) && Value(s) == n
  {
    hide Value;
    if n < 10 then
      OneDigit(n);
      [DigitChar(n)]
    else
      var rest := Decimal(n / 10);
      OneMore(rest, n % 10);
      rest + [DigitChar(n % 10)]
  }

  function Pow10(n: nat): (p: nat)
    ensures p > 0
  {
    if n == 0 then 1 else 10 * Pow10(n - 1)
  }

  // A scaling factor with m decimal digits.
  predicate Scaling(s: nat, m: nat) {
    m <= 3 && s == Pow10(m)
  }

  // The whole part, and the fractional digits behind a dot if there are any.
  function Text(whole: nat, fraction: string): string {
    Decimal(whole) + if fraction == [] then [] else "." + fraction
  }

  // The fixed-point number with these digits: (whole.fraction) * scaling == number.
  predicate Means(number: nat, scaling: nat, whole: nat, fraction: string) {
    Digits(fraction) && number * Pow10(|fraction|) == (whole * Pow10(|fraction|) + Value(fraction)) * scaling
  }

  // ---- printing ----

  // What the digits so far leave of the number.
  predicate Printed(number: nat, scaling: nat, whole: nat, fraction: string, n: nat) {
    Digits(fraction) && number * Pow10(|fraction|) == (whole * Pow10(|fraction|) + Value(fraction)) * scaling + n
  }

  lemma PrintedStep(number: nat, scaling: nat, whole: nat, fraction: string, n: nat, d: nat, r: nat)
    requires Printed(number, scaling, whole, fraction, n) && n * 10 == d * scaling + r && d < 10
    ensures Printed(number, scaling, whole, fraction + [DigitChar(d)], r)
  {
    var f := fraction + [DigitChar(d)];
    assert f[..|fraction|] == fraction;
    var p, v := Pow10(|fraction|), Value(fraction);
    assert Pow10(|f|) == 10 * p && Value(f) == 10 * v + d;
    TenTimes(number, p, whole, v, scaling, n, d, r);
  }

  lemma TenTimes(number: nat, p: nat, whole: nat, v: nat, scaling: nat, n: nat, d: nat, r: nat)
    requires number * p == (whole * p + v) * scaling + n && n * 10 == d * scaling + r
    ensures number * (10 * p) == (whole * (10 * p) + (10 * v + d)) * scaling + r
  {
    var x := whole * p + v;
    assert number * (10 * p) == 10 * (number * p);
    assert whole * (10 * p) + (10 * v + d) == 10 * x + d by {
      assert whole * (10 * p) == 10 * (whole * p);
    }
    assert (10 * x + d) * scaling == 10 * (x * scaling) + d * scaling;
  }

  // After m digits nothing is left.
  lemma NothingLeft(number: nat, scaling: nat, m: nat, whole: nat, fraction: string, n: nat)
    requires Scaling(scaling, m) && Printed(number, scaling, whole, fraction, n) && n < scaling && |fraction| >= m
    ensures n == 0
  {
    var j := |fraction|;
    Pow10Sum(m, j - m);
    hide Pow10;
    var x := whole * Pow10(j) + Value(fraction);
    FactorOut(number, Pow10(j - m), scaling);
    MultipleRest(number * Pow10(j - m), x, scaling, n, number * Pow10(j));
  }

  lemma FactorOut(number: nat, a: nat, s: nat)
    ensures number * (s * a) == (number * a) * s
  {
  }

  lemma MultipleRest(a: nat, x: nat, s: nat, n: nat, t: nat)
    requires n < s && t == x * s + n && t == a * s
    ensures n == 0
  {
    QuotientIs(t, s, x, n);
    QuotientIs(t, s, a, 0);
  }

  lemma {:induction false} Pow10Sum(m: nat, n: nat)
    ensures Pow10(m + n) == Pow10(m) * Pow10(n)
  {
    if m > 0 {
      Pow10Sum(m - 1, n);
      assert Pow10(m) * Pow10(n) == 10 * (Pow10(m - 1) * Pow10(n));
    }
  }

  // _isonumber_u64_to_string, raw: the digits mean the number, no zero ends them, and there are
  // no more of them than the scaling has.
  method Print(number: nat, scaling: nat, ghost m: nat) returns (out: string, ghost whole: nat, ghost fraction: string)
    requires number < UINT64_LIMIT && Scaling(scaling, m)
    ensures out == Text(whole, fraction) && Means(number, scaling, whole, fraction) && |fraction| <= m
    ensures fraction != [] ==> fraction[|fraction| - 1] != '0'
  {
    whole, fraction := WholePart(number, scaling), [];
    out := Decimal(number / scaling);
    var idx := |out|;
    out := out + ".";
    var n := number % scaling;
    var left := 3;
    LeftDigits(number, scaling, m, whole, fraction, n);
    while n != 0 && left > 0
      invariant left == 3 - |fraction| && 0 <= left <= 3 && 0 <= n < scaling && whole == number / scaling
      invariant Printed(number, scaling, whole, fraction, n)
      invariant out == Decimal(whole) + "." + fraction
      invariant n == 0 ==> fraction == [] || fraction[|fraction| - 1] != '0'
      invariant fraction == [] || fraction[|fraction| - 1] != '0' ==> idx == |Text(whole, fraction)|
      invariant |fraction| <= m && (n != 0 ==> |fraction| < m)
      decreases left
    {
      hide Decimal, Printed, Pow10;
      // show a fractional digit
      left := left - 1;
      n := n * 10;
      NextDigit(n, scaling);
      var shown := n / scaling;
      PrintedStep(number, scaling, whole, fraction, n / 10, shown, n % scaling);
      out := out + [DigitChar(shown)];
      fraction := fraction + [DigitChar(shown)];
      if shown != 0 {
        idx := |out|;
      }
      n := n % scaling;
      LeftDigits(number, scaling, m, whole, fraction, n);
    }
    out := out[..idx];
  }

  ghost function WholePart(number: nat, scaling: nat): nat
    requires scaling > 0
  {
    Division(number, scaling);
    number / scaling
  }

  lemma NextDigit(n: nat, scaling: nat)
    requires n < scaling * 10 && n % 10 == 0 && scaling > 0
    ensures n / 10 * 10 == n && 0 <= n / scaling < 10 && n == n / scaling * scaling + n % scaling
    ensures 0 <= n % scaling < scaling
    ensures n / scaling == 0 && n % scaling == 0 ==> n == 0
  {
    Division(n, scaling);
    QuotientBelow(n, scaling, 10);
  }

  lemma LeftDigits(number: nat, scaling: nat, m: nat, whole: nat, fraction: string, n: nat)
    requires Scaling(scaling, m) && n < scaling && |fraction| <= m
    requires fraction == [] ==> whole == number / scaling && n == number % scaling
    requires fraction != [] ==> Printed(number, scaling, whole, fraction, n)
    ensures Printed(number, scaling, whole, fraction, n) && (n != 0 ==> |fraction| < m)
  {
    if fraction == [] {
      Division(number, scaling);
    }
    if |fraction| >= m {
      NothingLeft(number, scaling, m, whole, fraction, n);
    }
  }

  // ---- parsing ----

  // The end of the digits that begin at position i.
  function DigitsEnd(s: string, i: nat): (e: nat)
    requires i <= |s|
    ensures i <= e <= |s| && Digits(s[i..e]) && (e < |s| ==> !Digit(s[e]))
    decreases |s| - i
  {
    if i == |s| || !Digit(s[i]) then i
    else
      var e := DigitsEnd(s, i + 1);
      assert s[i..e] == [s[i]] + s[i + 1..e];
      e
  }

  // The number of fractional digits of a text.
  function FractionLength(s: string): nat {
    var k := DigitsEnd(s, 0);
    if k < |s| && s[k] == '.' then DigitsEnd(s, k + 1) - (k + 1) else 0
  }

  lemma EndUnique(s: string, i: nat, e: nat)
    requires i <= e <= |s| && Digits(s[i..e]) && (e < |s| ==> !Digit(s[e]))
    ensures e == DigitsEnd(s, i)
  {
    var d := DigitsEnd(s, i);
    if d < e {
      DigitInside(s, i, e, d);
    } else if e < d {
      DigitInside(s, i, d, e);
    }
  }

  lemma DigitInside(s: string, i: nat, e: nat, k: nat)
    requires i <= k < e <= |s| && Digits(s[i..e])
    ensures Digit(s[k])
  {
    assert s[i..e][k - i] == s[k];
  }

  // Digits added to a number, modulo 64 bits.
  method AddDigits(s: string, start: nat, num: nat) returns (value: nat, scale: nat, next: nat)
    requires start <= |s| && num < UINT64_LIMIT && DigitsEnd(s, start) - start <= 19
    ensures next == DigitsEnd(s, start) && scale == Pow10(next - start) && value < UINT64_LIMIT
    ensures num * Pow10(next - start) + Value(s[start..next]) < UINT64_LIMIT ==>
      value == num * Pow10(next - start) + Value(s[start..next])
  {
    hide Pow10, Value, DigitsEnd, Total;
    value, scale, next := num, 1, start;
    ghost var end := DigitsEnd(s, start);
    NoDigits(s, start, num);
    while next < |s| && Digit(s[next])
      invariant start <= next <= end && value < UINT64_LIMIT && Digits(s[start..next]) && scale == Pow10(next - start)
      invariant
        var total := Total(num, Pow10(next - start), Value(s[start..next]));
        total < UINT64_LIMIT ==> value == total
      decreases |s| - next
    {
      NextIn(s, start, next, end);
      DigitAdded(s, start, next);
      var d := DigitValue(s[next]);
      ScaleStep(num, Pow10(next - start), Value(s[start..next]), d);
      value := (value * 10 % UINT64_LIMIT + d) % UINT64_LIMIT;
      scale := scale * 10;
      next := next + 1;
    }
    EndUnique(s, start, next);
    TotalIs(num, Pow10(next - start), Value(s[start..next]));
  }

  // The digits of v behind a number, where p is the power of their count.
  function Total(num: nat, p: nat, v: nat): nat {
    num * p + v
  }

  lemma TotalIs(num: nat, p: nat, v: nat)
    ensures Total(num, p, v) == num * p + v
  {
  }

  lemma NoDigits(s: string, start: nat, num: nat)
    requires start <= |s|
    ensures s[start..start] == [] && Digits(s[start..start])
    ensures Pow10(start - start) == 1 && Total(num, Pow10(start - start), Value(s[start..start])) == num
  {
  }

  lemma DigitAdded(s: string, start: nat, next: nat)
    requires start <= next < |s| && Digits(s[start..next]) && Digit(s[next])
    ensures Digits(s[start..next + 1]) && Value(s[start..next + 1]) == 10 * Value(s[start..next]) + DigitValue(s[next])
    ensures Pow10(next + 1 - start) == 10 * Pow10(next - start)
  {
    assert s[start..next + 1][..next - start] == s[start..next];
  }

  lemma NextIn(s: string, start: nat, next: nat, end: nat)
    requires start <= |s| && start <= next <= end == DigitsEnd(s, start) && next < |s| && Digit(s[next])
    ensures next < end
  {
  }

  lemma ScaleStep(num: nat, p: nat, v: nat, d: nat)
    ensures Total(num, 10 * p, 10 * v + d) == 10 * Total(num, p, v) + d
  {
    assert num * (10 * p) == 10 * (num * p);
  }

  // strtoull, for a text that begins with a digit or is not a number; None is an overflow
  method ReadWhole(s: string) returns (num: Result<nat>, next: nat)
    ensures next == DigitsEnd(s, 0)
    ensures num == if Value(s[..next]) < UINT64_LIMIT then Ok(Value(s[..next])) else Error
  {
    var value := 0;
    next := 0;
    ghost var end := DigitsEnd(s, 0);
    while next < |s| && Digit(s[next])
      invariant 0 <= next <= end && s[0..next] == s[..next] && Digits(s[..next]) && value == Value(s[..next])
      decreases |s| - next
    {
      NextIn(s, 0, next, end);
      assert s[..next + 1][..next] == s[..next];
      value := value * 10 + DigitValue(s[next]);
      next := next + 1;
    }
    EndUnique(s, 0, next);
    num := if value < UINT64_LIMIT then Ok(value) else Error;
  }

  const SYMBOLS := " kMGTPE"

  // strchr
  method FindSymbol(c: char) returns (i: int)
    ensures i == -1 <==> c !in SYMBOLS
    ensures -1 <= i && (i >= 0 ==> i < |SYMBOLS| && SYMBOLS[i] == c)
  {
    i := 0;
    while i < |SYMBOLS|
      invariant 0 <= i <= |SYMBOLS| && c !in SYMBOLS[..i]
    {
      if SYMBOLS[i] == c {
        return;
      }
      i := i + 1;
    }
    i := -1;
  }

  // How often a letter stands for a factor of a thousand.
  function Thousands(letter: char): nat {
    match letter
    case 'k' => 1
    case 'M' => 2
    case 'G' => 3
    case 'T' => 4
    case 'P' => 5
    case 'E' => 6
    case _ => 0
  }

  lemma SymbolIs(i: nat)
    requires 0 < i < |SYMBOLS|
    ensures i == Thousands(SYMBOLS[i])
  {
    assert SYMBOLS[1..] == ['k', 'M', 'G', 'T', 'P', 'E'];
  }

  predicate Letter(c: char) {
    Thousands(c) > 0
  }

  lemma LetterKnown(c: char)
    requires Letter(c)
    ensures c in SYMBOLS && c != ' '
  {
    assert SYMBOLS[Thousands(c)] == c;
  }

  function SpacesEnd(s: string, i: nat): (e: nat)
    requires i <= |s|
    ensures i <= e <= |s| && (e < |s| ==> s[e] != ' ') && forall k :: i <= k < e ==> s[k] == ' '
    decreases |s| - i
  {
    if i < |s| && s[i] == ' ' then SpacesEnd(s, i + 1) else i
  }

  // The spaces and the letter behind the digits.
  method ReadPrefix(s: string, start: nat) returns (factor: Result<nat>, ghost k: nat)
    requires start <= |s|
    ensures factor.Ok? ==> factor.value == Pow10(3 * k)
    ensures
      var e := SpacesEnd(s, start);
      && (e == |s| ==> factor == Ok(1) && k == 0)
      && (e < |s| ==> (factor.Ok? <==> e + 1 == |s| && s[e] in SYMBOLS))
      && (e < |s| && factor.Ok? ==> k == Thousands(s[e]))
  {
    k := 0;
    var next := start;
    while next < |s| && s[next] == ' '
      invariant start <= next <= |s| && SpacesEnd(s, next) == SpacesEnd(s, start)
    {
      next := next + 1;
    }
    var f := 1;
    if next < |s| {
      if next + 1 != |s| {
        return Error, 0;
      }
      var prefix := FindSymbol(s[next]);
      if prefix == -1 {
        return Error, 0;
      }
      ghost var i := prefix;
      SymbolIs(i);
      while prefix > 0
        invariant 0 <= prefix && f == Pow10(3 * k) && prefix + k == i
      {
        Thousand(3 * k);
        f := f * 1000;
        prefix, k := prefix - 1, k + 1;
      }
    }
    factor := Ok(f);
  }

  // The text is the printed form of the number.
  predicate Plain(iso: string, number: nat, scaling: nat, m: nat, whole: nat, fraction: string) {
    && Scaling(scaling, m) && number < UINT64_LIMIT && |fraction| <= m
    && Means(number, scaling, whole, fraction) && iso == Text(whole, fraction)
  }

  function Spaces(n: nat): string {
    seq(n, _ => ' ')
  }

  // ... and behind it, after some spaces, a letter for a power of thousand.
  predicate Lettered(iso: string, number: nat, scaling: nat, m: nat, whole: nat, fraction: string, blanks: nat,
                     letter: char)
  {
    && Plain(Text(whole, fraction), number, scaling, m, whole, fraction)
    && Letter(letter) && iso == Text(whole, fraction) + (Spaces(blanks) + [letter])
  }

  function Quotient(x: nat, d: nat): nat
    requires d > 0
  {
    Division(x, d);
    x / d
  }

  // What parsing the printed form gives: the product with the scaling may not fit 64 bits.
  function Parsed(number: nat, scaling: nat, fraction: string): nat
    requires scaling > 0
  {
    if fraction == [] then number else Quotient(number * scaling % UINT64_LIMIT, scaling)
  }

  lemma Thousand(n: nat)
    ensures Pow10(n + 3) == 1000 * Pow10(n)
  {
    assert Pow10(n + 3) == 10 * Pow10(n + 2) && Pow10(n + 2) == 10 * Pow10(n + 1) && Pow10(n + 1) == 10 * Pow10(n);
  }

  lemma {:induction false} Pow10Grows(m: nat, n: nat)
    requires m < n
    ensures Pow10(m) < Pow10(n)
    decreases n
  {
    if m + 1 < n {
      Pow10Grows(m, n - 1);
    }
  }

  // The number without its dot is filled up with zeros to the digits of the scaling.
  method FillUp(value: nat, scale: nat, scaling: nat, ghost j: nat, ghost m: nat) returns (num: nat, filled: nat)
    requires Scaling(scaling, m) && scale == Pow10(j) && value < UINT64_LIMIT
    ensures num < UINT64_LIMIT && filled == Pow10(if j <= m then m else j)
    ensures j <= m && value * Pow10(m - j) < UINT64_LIMIT ==> num == value * Pow10(m - j)
  {
    num, filled := value, scale;
    ghost var k := j;
    while filled < scaling
      invariant j <= k && num < UINT64_LIMIT && filled == Pow10(k) && (j <= m ==> k <= m) && (j > m ==> k == j)
      invariant j <= m && value * Pow10(k - j) < UINT64_LIMIT ==> num == value * Pow10(k - j)
      decreases scaling - filled
    {
      if m <= k {
        Pow10AtMost(m, k);
      }
      ScaleStep(value, Pow10(k - j), 0, 0);
      num := num * 10 % UINT64_LIMIT;
      filled := filled * 10;
      k := k + 1;
    }
    if k < m {
      Pow10Grows(k, m);
    }
  }

  lemma Pow10AtMost(m: nat, n: nat)
    requires m <= n
    ensures Pow10(m) <= Pow10(n)
  {
    if m < n {
      Pow10Grows(m, n);
    }
  }

  // The digits of the number end at `end`.
  predicate Parted(iso: string, end: nat, number: nat, scaling: nat, m: nat, whole: nat, fraction: string) {
    var n := DigitsEnd(iso, 0);
    && Digits(fraction) && |fraction| <= m && end <= |iso| && number < UINT64_LIMIT
    && (end < |iso| ==> iso[end] != '.' && !Digit(iso[end]))
    && (fraction == [] ==> n == end && number == whole * scaling)
    && (fraction != [] ==>
         && n < end && iso[n] == '.' && DigitsEnd(iso, n + 1) == end && iso[n + 1..end] == fraction
         && (whole * Pow10(|fraction|) + Value(fraction)) * Pow10(m - |fraction|) == number
         && whole * Pow10(|fraction|) + Value(fraction) < UINT64_LIMIT)
  }

  // The parts of a printed number, with something else behind it.
  lemma PlainParts(iso: string, rest: string, number: nat, scaling: nat, m: nat, whole: nat, fraction: string)
    requires Plain(Text(whole, fraction), number, scaling, m, whole, fraction) && iso == Text(whole, fraction) + rest
    requires rest != [] ==> !Digit(rest[0]) && rest[0] != '.'
    ensures
      && Digits(iso[..DigitsEnd(iso, 0)]) && Value(iso[..DigitsEnd(iso, 0)]) == whole < UINT64_LIMIT
      && Parted(iso, |iso| - |rest|, number, scaling, m, whole, fraction)
  {
    hide Pow10, Value, Decimal, Means, Text;
    var n, end := |Decimal(whole)|, |iso| - |rest|;
    TextParts(iso, rest, whole, fraction);
    NumberParts(number, scaling, m, whole, fraction);
    EndUnique(iso, 0, n);
    if fraction != [] {
      EndUnique(iso, n + 1, end);
    }
  }

  // The number without its dot, filled up to the digits of the scaling.
  lemma NumberParts(number: nat, scaling: nat, m: nat, whole: nat, fraction: string)
    requires Scaling(scaling, m) && number < UINT64_LIMIT && |fraction| <= m && Means(number, scaling, whole, fraction)
    ensures Digits(fraction) && whole < UINT64_LIMIT && (fraction == [] ==> number == whole * scaling)
    ensures (whole * Pow10(|fraction|) + Value(fraction)) * Pow10(m - |fraction|) == number
    ensures whole * Pow10(|fraction|) + Value(fraction) < UINT64_LIMIT
  {
    hide Pow10;
    var j := |fraction|;
    var f := whole * Pow10(j) + Value(fraction);
    NoFactor();
    Pow10Sum(m - j, j);
    Cancel(number, Pow10(j), f, Pow10(m - j));
    AtMost(f, Pow10(m - j));
    AtMost(whole, Pow10(j));
  }

  lemma TextParts(iso: string, rest: string, whole: nat, fraction: string)
    requires iso == Text(whole, fraction) + rest
    ensures var n, end := |Decimal(whole)|, |iso| - |rest|;
      && n <= end <= |iso| && iso[0..n] == iso[..n] == Decimal(whole) && Digits(iso[..n]) && Value(iso[..n]) == whole
      && (rest != [] ==> iso[end] == rest[0])
      && (fraction == [] ==> n == end) && (fraction != [] ==> n < end && iso[n] == '.' && iso[n + 1..end] == fraction)
  {
  }

  lemma AtMost(x: nat, p: nat)
    requires p > 0
    ensures x <= x * p
  {
    TimesOrder(x, 1, p);
  }

  lemma Cancel(a: nat, p: nat, f: nat, q: nat)
    requires p > 0 && a * p == f * (q * p)
    ensures a == f * q
  {
    assert f * (q * p) == (f * q) * p;
    QuotientIs(a * p, p, a, 0);
    QuotientIs((f * q) * p, p, f * q, 0);
  }

  // What parsing it with a letter gives.
  function LetterParsed(number: nat, scaling: nat, k: nat): Result<nat>
    requires scaling > 0
  {
    var f := Pow10(3 * k);
    if number * f < UINT64_LIMIT then Ok(Quotient(number * f * scaling % UINT64_LIMIT, scaling)) else Error
  }

  // The text stands at the letter behind its digits.
  lemma LetterBehind(iso: string, end: nat, blanks: nat, letter: char)
    requires Letter(letter) && end <= |iso| && iso[end..] == Spaces(blanks) + [letter]
    ensures SpacesEnd(iso, end) == |iso| - 1 && iso[|iso| - 1] == letter
    decreases blanks
  {
    assert iso[end..][blanks] == letter;
    if blanks > 0 {
      assert iso[end..][0] == ' ' && iso[end + 1..] == iso[end..][1..] == Spaces(blanks - 1) + [letter];
      LetterBehind(iso, end + 1, blanks - 1, letter);
    }
  }

  lemma LetteredParts(iso: string, rest: string, number: nat, scaling: nat, m: nat, whole: nat, fraction: string,
                      blanks: nat, letter: char)
    requires Lettered(iso, number, scaling, m, whole, fraction, blanks, letter) && rest == Spaces(blanks) + [letter]
    ensures rest != [] && !Digit(rest[0]) && rest[0] != '.' && letter in SYMBOLS && iso == Text(whole, fraction) + rest
    ensures Plain(Text(whole, fraction), number, scaling, m, whole, fraction)
    ensures SpacesEnd(iso, |iso| - |rest|) == |iso| - 1 && iso[|iso| - 1] == letter
  {
    LetterKnown(letter);
    assert rest[0] == if blanks > 0 then ' ' else letter;
    assert iso[|iso| - |rest|..] == rest;
    LetterBehind(iso, |iso| - |rest|, blanks, letter);
  }

  // isonumber_to_u64
  method ToU64(iso: string, scaling: nat, ghost number: nat, ghost m: nat, ghost whole: nat, ghost fraction: string,
               ghost blanks: nat, ghost letter: char) returns (r: Result<nat>)
    requires Scaling(scaling, m) && FractionLength(iso) <= 19
    ensures r.Ok? ==> r.value < UINT64_LIMIT
    ensures Plain(iso, number, scaling, m, whole, fraction) ==> r == Ok(Parsed(number, scaling, fraction))
    ensures Lettered(iso, number, scaling, m, whole, fraction, blanks, letter) ==>
      r == LetterParsed(number, scaling, Thousands(letter))
  {
    ghost var plain := Plain(iso, number, scaling, m, whole, fraction);
    ghost var lettered := Lettered(iso, number, scaling, m, whole, fraction, blanks, letter);
    ghost var rest := if plain then [] else Spaces(blanks) + [letter];
    if lettered {
      LetteredParts(iso, Spaces(blanks) + [letter], number, scaling, m, whole, fraction, blanks, letter);
    }
    if plain || lettered {
      PlainParts(iso, rest, number, scaling, m, whole, fraction);
    }
    ghost var end := if plain || lettered then |iso| - |rest| else 0;
    ParsedPlain(number, scaling, fraction);
    EndParts(iso, end, number, scaling, m, whole, fraction);
    hide Plain, Lettered, Spaces, Letter, SpacesEnd, Parted, Parsed, LetterParsed, Thousands, FractionLength;
    var num, next := ReadWhole(iso);
    if num == Error {
      return Error;
    }
    if next == |iso| {
      r := Times(num.value, scaling);
    } else {
      r := ReadFraction(iso, next, num.value, scaling, number, m, fraction, end);
    }
  }

  lemma ParsedPlain(number: nat, scaling: nat, fraction: string)
    requires scaling > 0
    ensures fraction == [] ==> Parsed(number, scaling, fraction) == number
    ensures fraction != [] && number < UINT64_LIMIT ==>
      LetterParsed(number, scaling, 0) == Ok(Parsed(number, scaling, fraction))
  {
    hide Quotient;
    NoFactor();
  }

  lemma EndParts(iso: string, end: nat, number: nat, scaling: nat, m: nat, whole: nat, fraction: string)
    ensures
      Parted(iso, end, number, scaling, m, whole, fraction) ==>
        && (end == |iso| ==> (fraction == [] <==> DigitsEnd(iso, 0) == |iso|))
        && (fraction == [] ==> number == whole * scaling)
        && (DigitsEnd(iso, 0) == |iso| ==> end == |iso|)
  {
  }

  // What comes behind the first digits: fractional digits, spaces and a letter.
  method ReadFraction(iso: string, start: nat, num: nat, scaling: nat, ghost number: nat, ghost m: nat,
                      ghost fraction: string, ghost end: nat) returns (r: Result<nat>)
    requires Scaling(scaling, m) && FractionLength(iso) <= 19 && start == DigitsEnd(iso, 0) < |iso|
    requires num < UINT64_LIMIT
    ensures r.Ok? ==> r.value < UINT64_LIMIT
    ensures
      Parted(iso, end, number, scaling, m, num, fraction) ==>
        && (end == |iso| ==> r == LetterParsed(number, scaling, 0))
        && (end < |iso| && SpacesEnd(iso, end) == |iso| - 1 && iso[|iso| - 1] in SYMBOLS ==>
             r == LetterParsed(number, scaling, Thousands(iso[|iso| - 1])))
  {
    hide Parted, FractionLength, SpacesEnd, Thousands;
    var value, scale, next;
    ghost var j;
    value, scale, next, j := ReadDecimals(iso, start, num, scaling, number, m, fraction, end);
    EndBound(iso, end, number, scaling, m, num, fraction);
    var factor;
    ghost var k;
    factor, k := ReadPrefix(iso, next);
    if factor == Error {
      return Error;
    }
    r := Combine(value, scale, factor.value, scaling, j, k, m);
  }

  lemma EndBound(iso: string, end: nat, number: nat, scaling: nat, m: nat, whole: nat, fraction: string)
    ensures Parted(iso, end, number, scaling, m, whole, fraction) ==> end <= |iso| && number < UINT64_LIMIT
    ensures end <= |iso| ==> (end == |iso| ==> SpacesEnd(iso, end) == |iso|)
  {
  }

  method ReadDecimals(iso: string, start: nat, num: nat, scaling: nat, ghost number: nat, ghost m: nat,
                      ghost fraction: string, ghost end: nat)
    returns (value: nat, scale: nat, next: nat, ghost j: nat)
    requires Scaling(scaling, m) && FractionLength(iso) <= 19 && start == DigitsEnd(iso, 0) < |iso|
    requires num < UINT64_LIMIT
    ensures start <= next <= |iso| && value < UINT64_LIMIT && m <= j && scale == Pow10(j)
    ensures Parted(iso, end, number, scaling, m, num, fraction) ==> value == number && next == end && j == m
  {
    value, scale, next := num, 1, start;
    ghost var d := 0;
    if iso[next] == '.' {
      d := DigitsEnd(iso, next + 1) - (next + 1);
      value, scale, next := AddDigits(iso, next + 1, value);
    }
    hide DigitsEnd, Value;
    NoFactor();
    value, scale := FillUp(value, scale, scaling, d, m);
    j := if d <= m then m else d;
  }

  method Times(num: nat, scaling: nat) returns (r: Result<nat>)
    requires 0 < scaling && num < UINT64_LIMIT
    ensures r == if num * scaling < UINT64_LIMIT then Ok(num * scaling) else Error
  {
    QuotientBound(num, scaling);
    if num > UINT64_MAX / scaling {
      // the value would leave 64 bits
      r := Error;
    } else {
      r := Ok(num * scaling);
    }
  }

  lemma QuotientBound(num: nat, scaling: nat)
    requires 0 < scaling
    ensures num <= UINT64_MAX / scaling <==> num * scaling < UINT64_LIMIT
  {
    Division(UINT64_MAX, scaling);
    if num <= UINT64_MAX / scaling {
      TimesOrder(scaling, num, UINT64_MAX / scaling);
    } else {
      TimesOrder(scaling, UINT64_MAX / scaling + 1, num);
    }
  }

  // The product of the digits, the prefix and the scaling, without the decimals.
  method Combine(value: nat, scale: nat, factor: nat, scaling: nat, ghost j: nat, ghost k: nat, ghost m: nat)
    returns (r: Result<nat>)
    requires Scaling(scaling, m) && value < UINT64_LIMIT && scale == Pow10(j) && factor == Pow10(3 * k) && j >= m
    ensures r.Ok? ==> r.value < UINT64_LIMIT
    ensures j == m ==>
      r == if value * factor < UINT64_LIMIT then Ok(Quotient(value * factor * scaling % UINT64_LIMIT, scaling))
           else Error
  {
    hide Pow10, Quotient;
    NoFactor();
    var num: nat, s: nat, f: nat := value, scale, factor;
    ghost var a, b := j, k;
    while s > scaling && s >= 1000
      invariant num < UINT64_LIMIT && s == Pow10(a) && f == Pow10(3 * b)
      invariant j == m ==> num == value && s == scale && f == factor
      decreases s
    {
      DivideThousand(a);
      s := s / 1000;
      a := a - 3;
      if f > 1 {
        DivideThousand(3 * b);
        f := f / 1000;
        b := b - 1;
      } else {
        num := num / 1000;
      }
    }
    QuotientBound(num, f);
    if num > UINT64_MAX / f {
      // the value would leave 64 bits
      return Error;
    }
    QuotientSmall(num * f * scaling % UINT64_LIMIT, s);
    r := Ok(Quotient(num * f * scaling % UINT64_LIMIT, s));
  }

  lemma QuotientSmall(x: nat, d: nat)
    requires d > 0
    ensures Quotient(x, d) <= x
  {
    Division(x, d);
    TimesOrder(x / d, 1, d);
  }

  lemma NoFactor()
    ensures Pow10(0) == 1
  {
  }

  lemma DivideThousand(n: nat)
    requires Pow10(n) >= 1000 || (Pow10(n) > 1 && n % 3 == 0)
    ensures n >= 3 && Pow10(n) / 1000 == Pow10(n - 3)
  {
    if n >= 3 {
      Thousand(n - 3);
    } else {
      assert Pow10(0) == 1 && Pow10(1) == 10 && Pow10(2) == 100;
    }
  }

  // ---- round trip ----

  // The parser gives the number back exactly when it has no fractional part, or its product with
  // the scaling fits 64 bits.
  lemma ParsedExact(number: nat, scaling: nat, m: nat, whole: nat, fraction: string)
    requires Scaling(scaling, m) && number < UINT64_LIMIT && |fraction| <= m && Means(number, scaling, whole, fraction)
    requires fraction != [] ==> fraction[|fraction| - 1] != '0'
    ensures fraction == [] <==> number % scaling == 0
    ensures Parsed(number, scaling, fraction) == number <==> number % scaling == 0 || number * scaling < UINT64_LIMIT
  {
    NoFraction(number, scaling, m, whole, fraction);
    var x := number * scaling % UINT64_LIMIT;
    Division(x, scaling);
    if number * scaling < UINT64_LIMIT {
      QuotientIs(number * scaling, scaling, number, 0);
    }
  }

  // A number with a letter is parsed right exactly when what it stands for, times the scaling, fits 64 bits.
  lemma LetterExact(number: nat, scaling: nat, m: nat, k: nat)
    requires Scaling(scaling, m)
    ensures LetterParsed(number, scaling, k) == Ok(number * Pow10(3 * k))
       <==> number * Pow10(3 * k) * scaling < UINT64_LIMIT
  {
    hide Pow10, Quotient;
    var p := number * Pow10(3 * k);
    AtMost(p, scaling);
    QuotientBack(p, scaling);
  }

  lemma QuotientBack(p: nat, scaling: nat)
    requires scaling > 0
    ensures Quotient(p * scaling % UINT64_LIMIT, scaling) == p <==> p * scaling < UINT64_LIMIT
  {
    var x := p * scaling % UINT64_LIMIT;
    Division(x, scaling);
    if p * scaling < UINT64_LIMIT {
      QuotientIs(p * scaling, scaling, p, 0);
    }
  }

  lemma ExampleM()
    ensures FractionLength("54M") <= 19 && Lettered("54M", 54, 1, 0, 54, [], 0, 'M')
  {
    OneDigit(5);
    OneMore([DigitChar(5)], 4);
    assert Decimal(54) == Decimal(5) + [DigitChar(4)] && Decimal(5) == [DigitChar(5)];
    hide Decimal, Value;
    assert Decimal(54) == "54" && Spaces(0) == [] && Pow10(0) == 1;
  }

  lemma ExampleG()
    ensures FractionLength("1.5 G") <= 19 && Lettered("1.5 G", 1500, 1000, 3, 1, "5", 1, 'G')
  {
    assert Decimal(1) == "1" && "5"[..0] == [] && Value("5") == 5 && Spaces(1) == " ";
    hide Decimal, Value, Spaces;
    assert Pow10(0) == 1 && Pow10(1) == 10 && Pow10(3) == 1000;
    hide Pow10;
    assert "1.5 G" == "1" + "." + "5" + (" " + ['G']);
  }

  lemma ExampleValues()
    ensures LetterParsed(54, 1, 2) == Ok(54_000_000) && LetterParsed(1500, 1000, 3) == Ok(1_500_000_000_000)
  {
    LetterExact(54, 1, 0, 2);
    LetterExact(1500, 1000, 3, 3);
    Thousand(0);
    Thousand(3);
    Thousand(6);
    NoFactor();
    assert Pow10(1) == 10 && Pow10(2) == 100 && Pow10(3) == 1000;
  }

  // "54M" is 54 millions, and "1.5 G" with three fractional digits is 1500 milliards of thousandths.
  method LetterExamples() returns (millions: Result<nat>, milliards: Result<nat>)
    ensures millions == Ok(54_000_000) && milliards == Ok(1_500_000_000_000)
  {
    ExampleM();
    ExampleG();
    ExampleValues();
    hide Plain, Lettered, Text, LetterParsed, FractionLength;
    millions := ToU64("54M", 1, 54, 0, 54, [], 0, 'M');
    milliards := ToU64("1.5 G", 1000, 1500, 3, 1, "5", 1, 'G');
  }

  lemma NoFraction(number: nat, scaling: nat, m: nat, whole: nat, fraction: string)
    requires Scaling(scaling, m) && |fraction| <= m && Means(number, scaling, whole, fraction)
    requires fraction != [] ==> fraction[|fraction| - 1] != '0'
    ensures fraction == [] <==> number % scaling == 0
  {
    var j := |fraction|;
    if fraction == [] {
      QuotientIs(number, scaling, whole, 0);
    } else {
      var f := whole * Pow10(j) + Value(fraction);
      Pow10Sum(m - j, j);
      Cancel(number, Pow10(j), f, Pow10(m - j));
      LastDigit(whole, Pow10(j - 1), Value(fraction[..j - 1]), DigitValue(fraction[j - 1]), f);
      if number % scaling == 0 {
        Division(number, scaling);
        NotMultiple(number / scaling, Pow10(j), Pow10(m - j), f);
        MultipleTen(number / scaling, Pow10(j - 1), f);
      }
    }
  }

  lemma LastDigit(whole: nat, p: nat, v: nat, d: nat, f: nat)
    requires f == whole * (10 * p) + (10 * v + d) && d < 10
    ensures f % 10 == d
  {
    assert whole * (10 * p) == 10 * (whole * p);
  }

  lemma NotMultiple(q: nat, p: nat, r: nat, f: nat)
    requires r > 0 && (r * p) * q == f * r
    ensures f == p * q
  {
    assert (r * p) * q == (p * q) * r;
    QuotientIs(f * r, r, f, 0);
    QuotientIs((p * q) * r, r, p * q, 0);
  }

  lemma MultipleTen(q: nat, p: nat, f: nat)
    requires f == 10 * p * q
    ensures f % 10 == 0
  {
    assert f == 10 * (p * q);
  }

  // ---- signed numbers ----

  const LARGEST: int := 0x7fff_ffff_ffff_ffff

  // The cast of a 64 bit number to a signed one.
  function ToSigned(x: int): (r: int)
    ensures INT64_MIN <= r < -INT64_MIN && (r - x) % UINT64_LIMIT == 0
  {
    var m := x % UINT64_LIMIT;
    if m < -INT64_MIN then m else m - UINT64_LIMIT
  }

  // isonumber_from_s64, raw
  method PrintSigned(number: int, scaling: nat, ghost m: nat)
    returns (out: string, ghost whole: nat, ghost fraction: string)
    requires INT64_MIN <= number < -INT64_MIN && Scaling(scaling, m)
    ensures out == (if number < 0 then "-" else "") + Text(whole, fraction)
    ensures Plain(Text(whole, fraction), Abs(number), scaling, m, whole, fraction)
    ensures fraction != [] ==> fraction[|fraction| - 1] != '0'
  {
    hide Means;
    var sign, num := "", 0;
    if number == INT64_MIN {
      sign, num := "-", 0x8000_0000_0000_0000;
    } else if number < 0 {
      sign, num := "-", -number;
    } else {
      num := number;
    }
    out, whole, fraction := Print(num, scaling, m);
    out := sign + out;
  }

  function Abs(x: int): nat {
    if x < 0 then -x else x
  }

  // isonumber_to_s64
  method ToS64(iso: string, scaling: nat, ghost number: int, ghost m: nat, ghost whole: nat, ghost fraction: string)
    returns (r: Result<int>)
    requires iso != [] && Scaling(scaling, m) && FractionLength(if iso[0] == '-' then iso[1..] else iso) <= 19
    ensures
      var text := if iso[0] == '-' then iso[1..] else iso;
      var u := Parsed(Abs(number), scaling, fraction);
      Plain(text, Abs(number), scaling, m, whole, fraction) && (iso[0] == '-' <==> number < 0) ==>
        r == Ok(ToSigned(if number < 0 then -ToSigned(u) else u))
  {
    hide Plain, Parsed, FractionLength;
    var text := if iso[0] == '-' then iso[1..] else iso;
    var u := ToU64(text, scaling, Abs(number), m, whole, fraction, 0, 'k');
    match u
    case Error => r := Error;
    case Ok(value) => r := Ok(if iso[0] == '-' then ToSigned(-ToSigned(value)) else ToSigned(value));
  }

  // Printing a number and parsing the text gives it back exactly when it has no fractional part, or
  // its product with the scaling fits 64 unsigned bits.
  method RoundTrip(number: int, scaling: nat, ghost m: nat) returns (r: Result<int>)
    requires INT64_MIN <= number < -INT64_MIN && Scaling(scaling, m)
    ensures r == Ok(number) <==> Abs(number) % scaling == 0 || Abs(number) * scaling < UINT64_LIMIT
  {
    hide Plain, Parsed, FractionLength, Means, ToSigned;
    var text;
    ghost var whole, fraction;
    text, whole, fraction := PrintSigned(number, scaling, m);
    Signless(text, number, whole, fraction);
    PlainLength(Text(whole, fraction), Abs(number), scaling, m, whole, fraction);
    r := ToS64(text, scaling, number, m, whole, fraction);
    ParsedExact(Abs(number), scaling, m, whole, fraction);
    ParsedFits(Abs(number), scaling, m, fraction);
    SignedExact(number, Parsed(Abs(number), scaling, fraction));
  }

  // The largest number with three fractional digits, 9223372036854775.807, comes back as 18446744073709.55.
  lemma LargestLost(whole: nat, fraction: string)
    requires |fraction| <= 3 && Means(LARGEST, 1000, whole, fraction)
    requires fraction != [] ==> fraction[|fraction| - 1] != '0'
    ensures Parsed(LARGEST, 1000, fraction) == 18446744073709550
  {
    Thousand(0);
    ParsedExact(LARGEST, 1000, 3, whole, fraction);
  }

  // The same number, printed and parsed.
  method PrintLargest() returns (r: Result<int>)
    ensures r != Ok(LARGEST)
  {
    Thousand(0);
    r := RoundTrip(LARGEST, 1000, 3);
  }

  lemma Signless(text: string, number: int, whole: nat, fraction: string)
    requires text == (if number < 0 then "-" else "") + Text(whole, fraction)
    ensures text != [] && (text[0] == '-' <==> number < 0)
    ensures (if text[0] == '-' then text[1..] else text) == Text(whole, fraction)
  {
    assert Digit(Decimal(whole)[0]) && Text(whole, fraction)[0] == Decimal(whole)[0];
  }

  lemma PlainLength(iso: string, number: nat, scaling: nat, m: nat, whole: nat, fraction: string)
    requires Plain(iso, number, scaling, m, whole, fraction)
    ensures FractionLength(iso) <= 3 && |fraction| <= m && Means(number, scaling, whole, fraction)
    ensures number < UINT64_LIMIT
  {
    PlainParts(iso, [], number, scaling, m, whole, fraction);
    hide Means;
  }

  lemma ParsedFits(number: nat, scaling: nat, m: nat, fraction: string)
    requires number < UINT64_LIMIT && Scaling(scaling, m)
    ensures Parsed(number, scaling, fraction) < UINT64_LIMIT
  {
    if fraction != [] {
      QuotientSmall(number * scaling % UINT64_LIMIT, scaling);
    }
  }

  lemma SignedExact(number: int, u: nat)
    requires INT64_MIN <= number < -INT64_MIN && u < UINT64_LIMIT
    ensures ToSigned(if number < 0 then -ToSigned(u) else u) == number <==> u == Abs(number)
  {
  }
}
