// The lossy number codes: time codes (RFC 5497, section 5) and metric codes (RFC 7181, section 6.2).
module Codes {
  import opened Arith

  const UINT64_LIMIT: nat := 0x1_0000_0000_0000_0000
  const UINT64_MAX: nat := UINT64_LIMIT - 1

  const TIME_MIN: nat := 1
  const TIME_MAX: nat := 0xdac0_0000
  const METRIC_MIN: nat := 1
  const METRIC_MAX: nat := 0xff_ff00
  const METRIC_INFINITE: nat := 0xff_ffff

  // m << n
  function Scaled(m: nat, n: nat): nat {
    m * Pow2(n)
  }

  lemma ScaledStep(m: nat, n: nat)
    ensures Scaled(m, n + 1) == 2 * Scaled(m, n) == Scaled(2 * m, n) && Scaled(m, 0) == m
  {
  }

  lemma ScaledOrder(m: nat, m': nat, n: nat)
    requires m < m'
    ensures Scaled(m, n) < Scaled(m', n)
  {
  }

  // d is x divided by a power of two and rounded up.
  predicate Rounded(x: nat, d: nat, n: nat) {
    d > 0 && Scaled(d - 1, n) < x <= Scaled(d, n)
  }

  lemma RoundedStep(x: nat, d: nat, n: nat)
    requires Rounded(x, d, n)
    ensures Rounded(x, (d + 1) / 2, n + 1)
  {
    var d' := (d + 1) / 2;
    ScaledStep(d', n);
    ScaledStep(d' - 1, n);
    if 2 * d' > d {
      ScaledOrder(d, 2 * d', n);
    }
    if 2 * (d' - 1) < d - 1 {
      ScaledOrder(2 * (d' - 1), d - 1, n);
    }
  }

  lemma RoundedAbove(x: nat, d: nat, n: nat, k: nat)
    requires Rounded(x, d, n) && k < d
    ensures Scaled(k, n) < x
  {
    if k < d - 1 {
      ScaledOrder(k, d - 1, n);
    }
  }

  lemma RoundedBelow(x: nat, d: nat, n: nat, k: nat)
    requires Rounded(x, d, n) && d <= k
    ensures x <= Scaled(k, n)
  {
    if d < k {
      ScaledOrder(d, k, n);
    }
  }

  // ---- time codes ----

  // The time of a code, times 1024: (1000 + 125 a) 2^b for the code 8 b + a.
  function Time1024(code: nat): nat {
    Scaled(1000 + 125 * (code % 8), code / 8)
  }

  // rfc5497_timetlv_decode
  function DecodeTime(code: nat): nat
    requires code < 256
  {
    if code == 0 then 0
    else if code == 255 then UINT64_MAX
    else
      var a, b := code % 8, code / 8;
      if b <= 10 then Shifted(1000 + 125 * a, 10 - b) else Scaled(1000 + 125 * a, b - 10)
  }

  lemma TimeGrows(code: nat)
    ensures Time1024(code) < Time1024(code + 1)
  {
    var a, b := code % 8, code / 8;
    if a < 7 {
      assert (code + 1) % 8 == a + 1 && (code + 1) / 8 == b;
      ScaledOrder(1000 + 125 * a, 1000 + 125 * (a + 1), b);
    } else {
      assert (code + 1) % 8 == 0 && (code + 1) / 8 == b + 1;
      ScaledStep(1000, b);
      ScaledOrder(1875, 2000, b);
    }
  }

  lemma {:induction false} TimeOrder(c: nat, d: nat)
    requires c <= d
    ensures Time1024(c) <= Time1024(d)
    decreases d - c
  {
    hide Time1024;
    if c < d {
      TimeGrows(c);
      TimeOrder(c + 1, d);
    }
  }

  lemma ShiftTruncates(t: nat, m: nat, p: nat, q: nat)
    requires p > 0 && q > 0 && p * q == 1024
    ensures t <= m / p <==> 1024 * t <= m * q
  {
    QuotientAtMost(t, m, p);
    ScaleBoth(q, p * t, m);
    Associate(p, q, t);
  }

  lemma ScaledUp(m: nat, n: nat)
    ensures Scaled(m, n + 10) == 1024 * Scaled(m, n)
  {
    Pow2Sum(n, 10);
    assert Pow2(10) == 1024;
    Associate(m, Pow2(n), 1024);
  }

  // The decoder truncates.
  lemma DecodeTruncates(code: nat, t: nat)
    requires 0 < code < 255
    ensures t <= DecodeTime(code) <==> 1024 * t <= Time1024(code)
  {
    var a, b := code % 8, code / 8;
    if b <= 10 {
      Pow2Sum(10 - b, b);
      assert Pow2(10) == 1024;
      hide Pow2;
      ShiftTruncates(t, 1000 + 125 * a, Pow2(10 - b), Pow2(b));
    } else {
      ScaledUp(1000 + 125 * a, b - 10);
      hide Scaled;
    }
  }

  lemma Associate(p: nat, q: nat, t: nat)
    ensures p * q * t == q * (p * t)
  {
  }

  lemma ScaleBoth(q: nat, a: nat, b: nat)
    requires q > 0
    ensures a <= b <==> q * a <= q * b
  {
    if a <= b {
      TimesOrder(q, a, b);
    } else {
      TimesOrder(q, b + 1, a);
    }
  }

  lemma QuotientAtMost(t: nat, m: nat, p: nat)
    requires p > 0
    ensures t <= m / p <==> p * t <= m
  {
    Division(m, p);
    if t <= m / p {
      TimesOrder(p, t, m / p);
    } else {
      TimesOrder(p, m / p + 1, t);
    }
  }

  // The code whose time is the first one not below t.
  predicate TimeCode(t: nat, code: nat) {
    code > 0 && Time1024(code - 1) < 1024 * t <= Time1024(code)
  }

  lemma TimeCodeOrder(t: nat, code: nat, c: nat)
    requires TimeCode(t, code)
    ensures code <= c <==> 1024 * t <= Time1024(c)
  {
    hide Time1024;
    if code <= c {
      TimeOrder(code, c);
    } else {
      TimeOrder(c, code - 1);
    }
  }

  // What rfc5497_timetlv_encode returns.
  predicate TimeEncoding(t: nat, code: nat) {
    if t < TIME_MIN then code == 0 else if t > TIME_MAX then code == 255 else TimeCode(t, code)
  }

  // The two halves of the code are adjoint: for every time t and every code c, the code of t is at
  // most c exactly when t is at most the time of c. So the encoder returns the least code whose time
  // is not below t.
  lemma TimeAdjunction(t: nat, code: nat, c: nat)
    requires t <= UINT64_MAX && TimeEncoding(t, code) && c < 256
    ensures code <= 255 && (code <= c <==> t <= DecodeTime(c))
  {
    assert Time1024(254) == 1024 * TIME_MAX by {
      TopTime();
    }
    hide Time1024;
    if TIME_MIN <= t <= TIME_MAX {
      TimeCodeOrder(t, code, 254);
      if 0 < c < 255 {
        TimeCodeOrder(t, code, c);
        DecodeTruncates(c, t);
      }
    } else if t > TIME_MAX && 0 < c < 255 {
      TimeOrder(c, 254);
      DecodeTruncates(c, t);
    }
  }

  lemma TopTime()
    ensures Time1024(254) == 1024 * TIME_MAX
  {
    Pow2Sum(10, 21);
    assert Pow2(10) == 1024 && Pow2(21) == 0x20_0000;
  }

  // The smallest exponent for which the rounded value is at most `limit`.
  predicate Halved(x: nat, d: nat, n: nat, limit: nat) {
    Rounded(x, d, n) && (n > 0 ==> Scaled(limit, n - 1) < x)
  }

  lemma HalvedStep(x: nat, d: nat, n: nat, limit: nat)
    requires Halved(x, d, n, limit) && d > limit
    ensures Halved(x, (d + 1) / 2, n + 1, limit)
  {
    hide Scaled;
    RoundedStep(x, d, n);
    RoundedAbove(x, d, n, limit);
  }

  lemma HalvedStart(x: nat, limit: nat)
    requires x > 0
    ensures Halved(x, x, 0, limit)
  {
    ScaledStep(x, 0);
    ScaledStep(x - 1, 0);
  }

  // Any x is above half the limit, scaled, once it has been halved.
  lemma HalvedLow(x: nat, d: nat, n: nat, limit: nat)
    requires Halved(x, d, n, limit) && n > 0
    ensures limit < 2 * d
  {
    hide Scaled;
    ScaledStep(d, n - 1);
    if 2 * d <= limit {
      if 2 * d < limit {
        ScaledOrder(2 * d, limit, n - 1);
      }
    }
  }

  // The rounded value d with exponent b, where d has been reached by halving.
  lemma HalvedCode(t: nat, d: nat, k: nat, a: nat)
    requires Halved(t, d, k, 1875) && d <= 1875 && (k == 0 ==> d >= 1000)
    requires a == (d - 876) / 125
    ensures a < 8 && TimeCode(t, a + 8 * (k + 10))
  {
    var b := k + 10;
    if k > 0 {
      HalvedLow(t, d, k, 1875);
    }
    assert (a + 8 * b) % 8 == a && (a + 8 * b) / 8 == b;
    RoundedBelow(t, d, k, 1000 + 125 * a);
    ScaledUp(1000 + 125 * a, k);
    if a > 0 {
      assert (a + 8 * b - 1) % 8 == a - 1 && (a + 8 * b - 1) / 8 == b;
      RoundedAbove(t, d, k, 1000 + 125 * (a - 1));
      ScaledUp(1000 + 125 * (a - 1), k);
    } else {
      assert (a + 8 * b - 1) % 8 == 7 && (a + 8 * b - 1) / 8 == b - 1;
      if k > 0 {
        ScaledUp(1875, k - 1);
      } else {
        Nines(t, d);
      }
    }
  }

  lemma Nines(t: nat, d: nat)
    requires Rounded(t, d, 0) && d >= 1000
    ensures Scaled(1875, 9) < 1024 * t
  {
    ScaledStep(d, 0);
    ScaledStep(d - 1, 0);
    assert Pow2(9) == 512;
  }

  // The value d with exponent b, where d has been reached by doubling t.
  lemma DoubledCode(t: nat, d: nat, b: nat, a: nat)
    requires t > 0 && Scaled(d, b) == 1024 * t && 1000 <= d < 2000 && a == (d - 876) / 125
    ensures TimeCode(t, a + 8 * b)
  {
    if a == 8 {
      assert (a + 8 * b) % 8 == 0 && (a + 8 * b) / 8 == b + 1;
      ScaledStep(1000, b);
      ScaledOrder(d, 2000, b);
    } else {
      assert (a + 8 * b) % 8 == a && (a + 8 * b) / 8 == b;
      if d < 1000 + 125 * a {
        ScaledOrder(d, 1000 + 125 * a, b);
      }
    }
    if a > 0 {
      assert (a + 8 * b - 1) % 8 == a - 1 && (a + 8 * b - 1) / 8 == b;
      ScaledOrder(1000 + 125 * (a - 1), d, b);
    } else if b > 0 {
      assert (8 * b - 1) % 8 == 7 && (8 * b - 1) / 8 == b - 1;
      ScaledStep(937, b - 1);
      ScaledStep(1875, b - 1);
      ScaledStep(d, b - 1);
      ScaledOrder(1875, 2000, b - 1);
    } else {
      assert false;
    }
  }

  // rfc5497_timetlv_encode
  method EncodeTime(time: nat) returns (code: nat)
    requires time <= UINT64_MAX
    ensures TimeEncoding(time, code)
  {
    if time < TIME_MIN {
      return 0;
    }
    if time > TIME_MAX {
      return 255;
    }
    hide Halved, TimeCode, Scaled;
    var decoded, b;
    if time >= 1000 {
      decoded, b := Halve(time);
    } else {
      decoded, b := Double(time);
    }
    // the subtraction wraps around when the value has been halved to less than 1000
    assert (decoded - 1000 + 124) % UINT64_LIMIT == decoded - 876;
    var a := ((decoded - 1000 + 124) % UINT64_LIMIT) / 125;
    code := a + 8 * b;
    if time >= 1000 {
      HalvedCode(time, decoded, b - 10, a);
    } else {
      DoubledCode(time, decoded, b, a);
    }
  }

  method Halve(time: nat) returns (decoded: nat, b: nat)
    requires 1000 <= time <= UINT64_MAX
    ensures b >= 10 && Halved(time, decoded, b - 10, 1875) && 938 <= decoded <= 1875 && (b == 10 ==> decoded >= 1000)
  {
    decoded, b := time, 10;
    HalvedStart(time, 1875);
    while decoded > 1875
      invariant b >= 10 && Halved(time, decoded, b - 10, 1875) && (b == 10 ==> decoded >= 1000) && decoded > 0
      decreases decoded
    {
      hide Halved;
      HalvedStep(time, decoded, b - 10, 1875);
      b := b + 1;
      // half of it, an odd value going up
      decoded := (decoded + 1) / 2;
    }
    if b > 10 {
      HalvedLow(time, decoded, b - 10, 1875);
    }
  }

  method Double(time: nat) returns (decoded: nat, b: nat)
    requires 0 < time < 1000
    ensures Scaled(decoded, b) == 1024 * time && 1000 <= decoded < 2000
  {
    decoded, b := time, 10;
    TenTimes(time);
    while decoded < 1000
      invariant 0 < decoded < 2000 && b <= 10 && Scaled(decoded, b) == 1024 * time && decoded >= Pow2(10 - b)
      decreases 1000 - decoded
    {
      TenTimes(time);
      if b == 0 {
        assert false;
      }
      ScaledStep(decoded, b - 1);
      PowerStep(10 - b);
      b := b - 1;
      decoded := decoded * 2;
    }
  }

  lemma PowerStep(n: nat)
    ensures Pow2(n + 1) == 2 * Pow2(n)
  {
  }

  lemma TenTimes(t: nat)
    ensures Scaled(t, 10) == 1024 * t && Pow2(10) == 1024
  {
    assert Pow2(10) == 1024;
  }

  // ---- metric codes ----

  // The metric of a code, plus 256: (257 + b) 2^a for the code 256 a + b.
  function Metric256(code: nat): nat {
    Scaled(257 + code % 256, code / 256)
  }

  // rfc7181_metric_decode, for the 12 bits of a metric code
  function DecodeMetric(code: nat): int
    requires code < 4096
  {
    Metric256(code) - 256
  }

  lemma MetricGrows(code: nat)
    ensures Metric256(code) < Metric256(code + 1)
  {
    var b, a := code % 256, code / 256;
    if b < 255 {
      assert (code + 1) % 256 == b + 1 && (code + 1) / 256 == a;
      ScaledOrder(257 + b, 258 + b, a);
    } else {
      assert (code + 1) % 256 == 0 && (code + 1) / 256 == a + 1;
      ScaledStep(257, a);
      ScaledOrder(512, 514, a);
    }
  }

  lemma {:induction false} MetricOrder(c: nat, d: nat)
    requires c <= d
    ensures Metric256(c) <= Metric256(d) && (c < d ==> Metric256(c) < Metric256(d))
    decreases d - c
  {
    hide Metric256;
    if c < d {
      MetricGrows(c);
      MetricOrder(c + 1, d);
    }
  }

  // The code whose metric is the first one not below v.
  predicate MetricCode(v: nat, code: nat) {
    v + 256 <= Metric256(code) && (code > 0 ==> Metric256(code - 1) < v + 256)
  }

  // The two halves of the code are adjoint, for every metric in range and every code.
  lemma MetricAdjunction(v: nat, code: nat, c: nat)
    requires MetricCode(v, code) && c < 4096
    ensures code <= c <==> v <= DecodeMetric(c)
  {
    hide Metric256;
    if code <= c {
      MetricOrder(code, c);
    } else {
      MetricOrder(c, code - 1);
    }
  }

  // Every code is the code of its metric.
  lemma MetricRoundTrip(c: nat, code: nat)
    requires c < 4096
    requires DecodeMetric(c) >= 0 && MetricCode(DecodeMetric(c), code)
    ensures code == c
  {
    hide Metric256;
    if code < c {
      MetricOrder(code, c);
    } else if c < code {
      MetricOrder(c, code - 1);
    }
  }

  lemma MetricRange(c: nat)
    requires c < 4096
    ensures METRIC_MIN <= DecodeMetric(c) <= METRIC_MAX
  {
    MetricOrder(0, c);
    MetricOrder(c, 4095);
    TopMetric();
    ScaledStep(257, 0);
  }

  lemma TopMetric()
    ensures Metric256(4095) == METRIC_MAX + 256
  {
    assert Pow2(15) == 0x8000;
  }

  datatype Encoded = Encoded(code: nat) | Invalid

  // rfc7181_metric_encode: b[0] holds the exponent, b[1] the mantissa
  method EncodeMetric(metric: nat) returns (r: Encoded)
    ensures r == Invalid <==> metric < METRIC_MIN || metric >= METRIC_INFINITE
    ensures METRIC_MAX < metric < METRIC_INFINITE ==> r == Encoded(4095)
    ensures METRIC_MIN <= metric <= METRIC_MAX ==> r.Encoded? && r.code < 4096 && MetricCode(metric, r.code)
  {
    if metric < METRIC_MIN || metric >= METRIC_INFINITE {
      return Invalid;
    }
    if metric > METRIC_MAX {
      return Encoded(4095);
    }
    hide Halved, MetricCode, Field;
    var decoded, a := HalveMetric(metric + 256);
    HalvedMetric(metric, decoded, a);
    MetricTop(metric, 256 * a + decoded - 257);
    r := Encoded(Field(a, decoded - 257));
  }

  // Both parts of a metric field are bytes.
  function Field(a: nat, b: nat): (code: nat)
    ensures a < 256 && b < 256 ==> code == 256 * a + b
  {
    256 * (a % 256) + b % 256
  }

  method HalveMetric(value: nat) returns (decoded: nat, a: nat)
    requires value >= 257
    ensures Halved(value, decoded, a, 512) && 257 <= decoded <= 512
  {
    decoded, a := value, 0;
    HalvedStart(value, 512);
    while decoded > 512
      invariant Halved(value, decoded, a, 512) && decoded >= 257
      decreases decoded
    {
      hide Halved;
      HalvedStep(value, decoded, a, 512);
      a := a + 1;
      // half of it, an odd value going up
      decoded := (decoded + 1) / 2;
    }
  }

  lemma HalvedMetric(v: nat, d: nat, a: nat)
    requires Halved(v + 256, d, a, 512) && 257 <= d <= 512
    ensures MetricCode(v, 256 * a + d - 257)
  {
    var code := 256 * a + d - 257;
    assert code % 256 == d - 257 && code / 256 == a;
    if d > 257 {
      assert (code - 1) % 256 == d - 258 && (code - 1) / 256 == a;
    } else if a > 0 {
      assert (code - 1) % 256 == 255 && (code - 1) / 256 == a - 1;
    }
  }

  lemma MetricTop(v: nat, code: nat)
    requires v <= METRIC_MAX && MetricCode(v, code)
    ensures code < 4096
  {
    TopMetric();
    hide Metric256;
    if code > 4095 {
      MetricOrder(4095, code - 1);
    }
  }

  // Some codes of the tables: a second, a minute and four seconds, the longest time, and the metrics 1 and
  // 16776960.
  lemma KnownCodes()
    ensures DecodeTime(80) == 1_000 && DecodeTime(128) == 64_000 && DecodeTime(8) == 1 && DecodeTime(84) == 1_500
    ensures DecodeTime(254) == 3_670_016_000 && DecodeTime(0) == 0
    ensures DecodeMetric(0) == 1 && DecodeMetric(255) == 256 && DecodeMetric(256) == 258
    ensures DecodeMetric(4095) == 16_776_960
  {
    assert Pow2(0) == 1 && Pow2(1) == 2 && Pow2(6) == 64 && Pow2(9) == 512 && Pow2(15) == 32768;
    assert Pow2(21) == 64 * Pow2(15) == 2097152;
  }
}
