// The baud rate setting of an FTDI serial bridge (vcp_terminal.py, ftdi_to_clkbits):
// a divisor in eighths, rounded to the nearest, in a permuted fraction encoding.
module Ftdi {
  import opened Bytes

  const CLK := 48000000
  const FRAC_CODE: seq<int> := [0, 3, 2, 4, 1, 5, 6, 7]
  // the first divisor too large for 14 bits and three fraction bits
  const LIMIT := 0x20000

  datatype Setting = Setting(actualBaud: int, value: int, index: int)

  // Python's //
  function FloorDiv(a: int, b: int): int
    requires b != 0
  {
    if b > 0 then a / b else (-a) / (-b)
  }

  // best_divisor before the limit
  function Rounded(baud: int): int
    requires baud != 0
  {
    (FloorDiv(CLK, baud) + 1) / 2
  }

  function Limited(best: int): int {
    if best > LIMIT then LIMIT - 1 else best
  }

  // The integer part in the low 14 bits, the code of the fraction above.
  function Encoded(divisor: int): int {
    divisor / 8 + FRAC_CODE[divisor % 8] * 0x4000
  }

  // None: ZeroDivisionError
  function Clkbits(baud: int): Option<Setting> {
    if baud >= CLK / 16 then Some(ControlWords(CLK / 16, 0))
    else if baud >= CLK / 24 then Some(ControlWords(CLK / 24, 1))
    else if baud >= CLK / 32 then Some(ControlWords(CLK / 32, 2))
    else if baud == 0 then None
    else
      var best := Limited(Rounded(baud));
      if best == 0 then None
      else Some(ControlWords((FloorDiv(CLK, best) + 1) / 2, Encoded(best)))
  }

  function ControlWords(actualBaud: int, encoded: int): Setting {
    Setting(actualBaud, encoded % 0x10000, encoded / 0x10000)
  }

  function Abs(x: int): nat {
    if x < 0 then -x else x
  }

  // ---------------------------------------------------------------- rounding

  lemma FloorIs(a: int, b: int)
    requires b > 0
    ensures a / b * b <= a < a / b * b + b
  {
    assert a == a / b * b + a % b;
  }

  lemma Scaled(x: int, y: int, n: int)
    requires n > 0
    ensures x <= y <==> x * n <= y * n
    ensures (x - y) * n == x * n - y * n
    ensures 2 * x * n == 2 * (x * n)
  {
  }

  lemma FloorAtLeast(a: int, b: int, low: int)
    requires b > 0 && low * b <= a
    ensures low <= a / b
  {
    FloorIs(a, b);
    Scaled(a / b, low - 1, b);
  }

  lemma FloorAtMost(a: int, b: int, high: int)
    requires b > 0 && a < (high + 1) * b
    ensures a / b <= high
  {
    FloorIs(a, b);
    Scaled(high + 1, a / b, b);
  }

  // ftdi_to_clkbits divides by zero for 0 and for rates so negative that the rounded
  // divisor is 0.
  lemma FailsIff(baud: int)
    ensures Clkbits(baud).None? <==> baud == 0 || baud <= -CLK
  {
    if baud <= -CLK {
      FloorAtLeast(-CLK, -baud, -1);
      FloorAtMost(-CLK, -baud, -1);
    } else if baud < 0 {
      FloorAtMost(-CLK, -baud, -2);
    } else if 0 < baud < CLK / 32 {
      FloorAtLeast(CLK, baud, 32);
    }
  }

  lemma NearestMultiple(a: int, m: int, q: int, d: int)
    requires m > 0 && q * m <= a < q * m + m
    ensures var best := (q + 1) / 2;
      && Abs(2 * (best * m) - a) <= m
      && Abs(2 * (best * m) - a) <= Abs(2 * (d * m) - a)
  {
    var best := (q + 1) / 2;
    Scaled(best, 0, m);
    Scaled(2 * best, 1, m);
    assert q * m == 2 * (best * m) || q * m == 2 * (best * m) - m;
    Scaled(d, best, m);
    Scaled(best + 1, d, m);
    Scaled(d, best - 1, m);
    Scaled(best, -1, m);
    Scaled(best, 1, m);
  }

  // The nested floors round CLK / 2 / n to the nearest integer, for negative n too.
  lemma NearestDivisor(n: int, d: int)
    requires n != 0
    ensures Abs(2 * Rounded(n) * n - CLK) <= Abs(n)
    ensures Abs(2 * Rounded(n) * n - CLK) <= Abs(2 * d * n - CLK)
  {
    var a, m, q, best := if n > 0 then CLK else -CLK, Abs(n), FloorDiv(CLK, n), Rounded(n);
    FloorIs(a, m);
    NearestMultiple(a, m, q, d);
    SignOut(best, n);
    SignOut(d, n);
  }

  lemma SignOut(k: int, n: int)
    ensures 2 * k * n == if n >= 0 then 2 * (k * Abs(n)) else -(2 * (k * Abs(n)))
  {
  }

  // Between 184 and 1499999 the limit plays no part.
  lemma DivisorRange(baud: int)
    requires 0 < baud < CLK / 32
    ensures 16 <= Rounded(baud)
    ensures baud >= 184 ==> Rounded(baud) <= 130435
    ensures baud <= 183 ==> Rounded(baud) >= 131148
  {
    FloorAtLeast(CLK, baud, 32);
    if baud >= 184 {
      FloorAtMost(CLK, baud, 260869);
    } else {
      FloorAtLeast(CLK, baud, 262295);
    }
  }

  // No rate meets the one divisor that the limit lets through and the encoding
  // cannot hold.
  lemma LimitNeverMet(baud: int)
    requires 0 < baud < CLK / 32
    ensures Rounded(baud) != LIMIT
    ensures 16 <= Limited(Rounded(baud)) < LIMIT
  {
    DivisorRange(baud);
  }

  // The chosen divisor is the nearest one exactly from 184 on.
  lemma RoundingBoundIff(baud: int)
    requires 0 < baud < CLK / 32
    ensures Abs(2 * Limited(Rounded(baud)) * baud - CLK) <= baud <==> baud >= 184
  {
    DivisorRange(baud);
    NearestDivisor(baud, 0);
  }

  lemma ErrorBound(best: int, e: int, baud: int)
    requires best >= 16 && baud > 0 && 2 * (e * best) <= best + baud
    ensures 32 * e <= baud + 16
  {
    var p, y := e * best, baud * best;
    Scaled(16, best, baud);
    assert (32 * e) * best == 32 * p && (baud + 17) * best == y + 17 * best;
    Scaled(baud + 17, 32 * e, best);
  }

  // Two nearest divisions in a row: how far the reported rate is from the request.
  lemma TwoRoundings(best: int, actual: int, baud: int)
    requires best >= 16 && baud > 0
    requires Abs(2 * best * baud - CLK) <= baud
    requires Abs(2 * actual * best - CLK) <= best
    ensures 32 * Abs(actual - baud) <= baud + 16
  {
    Scaled(best, 0, baud);
    Scaled(actual, 0, best);
    var x, y := actual * best, baud * best;
    assert best * baud == y;
    assert (actual - baud) * best == x - y && (baud - actual) * best == y - x;
    ErrorBound(best, actual - baud, baud);
    ErrorBound(best, baud - actual, baud);
  }

  // Reported within 1/32 and half a unit of the request: which requests, exactly.
  predicate Accurate(baud: int) {
    var s := Clkbits(baud);
    s.Some? && 32 * Abs(s.value.actualBaud - baud) <= baud + 16
  }

  lemma AccurateIff(baud: int)
    requires baud > 0
    ensures Accurate(baud) <==>
      || 177 <= baud <= 1548387
      || 2000000 <= baud <= 2064516
      || 3000000 <= baud <= 3096774
  {
    if baud < CLK / 32 {
      DivisorRange(baud);
      if baud >= 184 {
        var best := Rounded(baud);
        NearestDivisor(baud, 0);
        NearestDivisor(best, 0);
        TwoRoundings(best, Rounded(best), baud);
      } else {
        assert FloorDiv(CLK, LIMIT - 1) == 366;
      }
    }
  }

  // ---------------------------------------------------------------- encoding

  // What the bridge reads out of the two control words: eighths of a clock divisor,
  // 0 and 1 standing for 1 and 1.5.
  function Decoded(value: int, index: int): int {
    var encoded := value + index * 0x10000;
    if encoded == 0 then 8
    else if encoded == 1 then 12
    else encoded % 0x4000 * 8 + Fraction(encoded / 0x4000)
  }

  // The eighths a fraction code stands for: 1/2, 1/4, 1/8 first.
  function Fraction(code: int): int {
    match code
    case 0 => 0
    case 1 => 4
    case 2 => 2
    case 3 => 1
    case 4 => 3
    case _ => code
  }

  lemma FractionInvertsCode(k: int)
    requires 0 <= k < 8
    ensures 0 <= FRAC_CODE[k] < 8 && Fraction(FRAC_CODE[k]) == k && FRAC_CODE[Fraction(k)] == k
  {
    assert k == 0 || k == 1 || k == 2 || k == 3 || k == 4 || k == 5 || k == 6 || k == 7;
  }

  // Decoding undoes encoding for every divisor that the limit lets through, except
  // the boundary itself and the two that share their code with a special one.
  lemma DecodedEncodedIff(divisor: int)
    requires 0 <= divisor <= LIMIT
    ensures var s := ControlWords(0, Encoded(divisor));
      Decoded(s.value, s.index) == divisor <==> divisor != 0 && divisor != 8 && divisor < LIMIT
  {
    FractionInvertsCode(divisor % 8);
    var s := ControlWords(0, Encoded(divisor));
    assert s.value + s.index * 0x10000 == Encoded(divisor);
    if divisor < LIMIT {
      assert divisor / 8 < 0x4000;
      assert Encoded(divisor) / 0x4000 == FRAC_CODE[divisor % 8];
      assert Encoded(divisor) % 0x4000 == divisor / 8;
    }
  }

  // The divisor asked for, in eighths, by every positive rate.
  function Divisor(baud: int): int
    requires baud > 0
  {
    if baud >= CLK / 16 then 8
    else if baud >= CLK / 24 then 12
    else if baud >= CLK / 32 then 16
    else Limited(Rounded(baud))
  }

  // Every positive rate is encoded in range and decodes to its divisor.
  lemma ClkbitsRoundTrip(baud: int)
    requires baud > 0
    ensures var s := Clkbits(baud);
      && s.Some? && 0 <= s.value.value < 0x10000 && s.value.index in {0, 1}
      && Decoded(s.value.value, s.value.index) == Divisor(baud)
  {
    if baud < CLK / 32 {
      LimitNeverMet(baud);
      var best := Divisor(baud);
      DecodedEncodedIff(best);
      FractionInvertsCode(best % 8);
    }
  }

  // The divisor the two control words say is the nearest one they can say.
  lemma NearestEncodable(baud: int, d: int)
    requires 0 < baud < CLK / 32 && 0 <= d < LIMIT
    ensures var s := Clkbits(baud);
      s.Some? && Abs(2 * Decoded(s.value.value, s.value.index) * baud - CLK) <= Abs(2 * d * baud - CLK)
  {
    ClkbitsRoundTrip(baud);
    DivisorRange(baud);
    NearestDivisor(baud, d);
    if baud <= 183 {
      Scaled(Limited(Rounded(baud)), d, baud);
      Scaled(183, baud, LIMIT);
    }
  }

  // Faster requests get the fastest of the three remaining rates that is not above.
  lemma FastRates(baud: int)
    requires baud >= CLK / 32
    ensures var s := Clkbits(baud);
      && s.Some?
      && s.value.actualBaud == (if baud >= 3000000 then 3000000 else if baud >= 2000000 then 2000000 else 1500000)
      && 2 * s.value.actualBaud * Decoded(s.value.value, s.value.index) == 48000000
  {
  }

  // The control words of a rate, given the divisor it should have: baud is nearest to
  // that divisor's rate, and the divisor to baud.
  lemma SettingOf(baud: int, best: int, actual: int)
    requires 0 < baud < CLK / 32 && 16 <= best < LIMIT
    ensures 2 * best * baud - baud <= CLK < 2 * best * baud + baud && 2 * actual * best - best <= CLK < 2 * actual * best + best ==>
      Clkbits(baud) == Some(ControlWords(actual, Encoded(best)))
  {
    if 2 * best * baud - baud <= CLK < 2 * best * baud + baud && 2 * actual * best - best <= CLK < 2 * actual * best + best {
      RoundedIs(baud, best);
      RoundedIs(best, actual);
    }
  }

  lemma RoundedIs(n: int, best: int)
    requires n > 0 && 2 * best * n - n <= CLK < 2 * best * n + n
    ensures Rounded(n) == best
  {
    assert (2 * best - 1) * n == 2 * best * n - n && (2 * best + 1) * n == 2 * best * n + n;
    FloorAtLeast(CLK, n, 2 * best - 1);
    FloorAtMost(CLK, n, 2 * best);
  }

  // The documented ones: rate, divisor in eighths, reported rate, control word.
  const DOCUMENTED: seq<(int, int, int, int)> := [
    (300, 80000, 300, 0x2710), (600, 40000, 600, 0x1388), (1200, 20000, 1200, 0x09c4), (2400, 10000, 2400, 0x04e2),
    (4800, 5000, 4800, 0x0271), (9600, 2500, 9600, 0x4138), (14406, 1666, 14406, 0x80d0),
    (57692, 416, 57692, 0x0034), (115384, 208, 115385, 0x001a), (230769, 104, 230769, 0x000d)]

  lemma DocumentedSettings(k: nat)
    requires k < |DOCUMENTED|
    ensures var (baud, best, actual, word) := DOCUMENTED[k];
      Clkbits(baud) == Some(Setting(actual, word, 0))
  {
    var (baud, best, actual, word) := DOCUMENTED[k];
    assert Encoded(best) == word;
    SettingOf(baud, best, actual);
  }

  // The special codes come from the first two branches only.
  lemma SpecialCodesIff(baud: int)
    requires baud > 0
    ensures var s := Clkbits(baud);
      s.Some? && s.value.index == 0 && s.value.value in {0, 1} <==> baud >= CLK / 24
  {
    if baud < CLK / 32 {
      LimitNeverMet(baud);
      FractionInvertsCode(Divisor(baud) % 8);
    }
  }

  // The reported rate is the nearest one to what the encoded divisor gives.
  lemma ReportedRateIsDecodedRate(baud: int, other: int)
    requires baud > 0
    ensures var s := Clkbits(baud);
      && s.Some?
      && var d := Decoded(s.value.value, s.value.index);
         Abs(2 * s.value.actualBaud * d - CLK) <= Abs(2 * other * d - CLK)
  {
    ClkbitsRoundTrip(baud);
    if baud < CLK / 32 {
      LimitNeverMet(baud);
      NearestDivisor(Divisor(baud), other);
    }
  }

  lemma QuotientNeverGrows(slow: int, fast: int)
    requires 0 < slow <= fast
    ensures CLK / fast <= CLK / slow
  {
    var high := CLK / slow;
    FloorAtLeast(CLK, slow, 0);
    FloorIs(CLK, slow);
    Scaled(slow, fast, high + 1);
    FloorAtMost(CLK, fast, high);
  }

  // A faster request never gets a larger divisor, across all branches.
  lemma DivisorNeverGrows(slow: int, fast: int)
    requires 0 < slow <= fast
    ensures var s, f := Clkbits(slow), Clkbits(fast);
      && s.Some? && f.Some?
      && Decoded(f.value.value, f.value.index) <= Decoded(s.value.value, s.value.index)
  {
    ClkbitsRoundTrip(slow);
    ClkbitsRoundTrip(fast);
    if fast < CLK / 32 {
      QuotientNeverGrows(slow, fast);
    }
    if slow < CLK / 32 {
      LimitNeverMet(slow);
    }
  }
}
