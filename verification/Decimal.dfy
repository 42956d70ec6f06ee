/** Decimal numerals: printf("%d"), strtol as the source uses it, and the file-length header. */
module Decimal {
  import opened Bytes

  function DigitChar(d: int): octet
    requires 0 <= d < 10
  {
    ('0' as int + d) as char
  }

  /** The numeral of a natural number, without leading zeros. */
  function Digits(n: nat): (s: seq<octet>)
    ensures |s| >= 1 && AllDigits(s)
  {
    if n < 10 then [DigitChar(n)] else Digits(n / 10) + [DigitChar(n % 10)]
  }

  /** What printf writes for "%d" and its 64-bit kin. */
  function Print(n: int): (s: seq<octet>)
    ensures |s| >= 1
  {
    if n < 0 then "-" + Digits(-n) else Digits(n)
  }

  predicate AllDigits(s: string) {
    forall i | 0 <= i < |s| :: IsDigit(s[i])
  }

  function Value(s: string): nat
    requires AllDigits(s)
  {
    if s == "" then 0
    else
      assert IsDigit(s[|s| - 1]);
      Value(s[..|s| - 1]) * 10 + (s[|s| - 1] as int - '0' as int)
  }

  predicate IsSpace(c: char) {
    c == ' ' || 9 <= c as int <= 13
  }

  function SkipSpaces(s: string): string {
    if s != "" && IsSpace(s[0]) then SkipSpaces(s[1..]) else s
  }

  /** How many leading characters of `s` are digits. */
  function DigitRun(s: string): (n: nat)
    ensures n <= |s| && AllDigits(s[..n])
    ensures n < |s| ==> !IsDigit(s[n])
  {
    if s != "" && IsDigit(s[0]) then 1 + DigitRun(s[1..]) else 0
  }

  /**
   * safe_parse_int and safe_parse_int64: strtol in base 10, refused when there are no digits, when
   * anything but the end of the string, LF or CR follows them, or when the value is out of range.
   */
  function Parse(s: string, lo: int, hi: int): Option<int> {
    var t := SkipSpaces(s);
    var signed := t != "" && (t[0] == '-' || t[0] == '+');
    var u := if signed then t[1..] else t;
    var n := DigitRun(u);
    if n == 0 || (n < |u| && u[n] != LF && u[n] != CR) then None
    else
      var v: int := Value(u[..n]);
      var v := if signed && t[0] == '-' then -v else v;
      if lo <= v <= hi then Some(v) else None
  }

  /** strtol without a look at what follows the number; 0 when there is none. */
  function Strtol(s: string): int {
    var t := SkipSpaces(s);
    var signed := t != "" && (t[0] == '-' || t[0] == '+');
    var u := if signed then t[1..] else t;
    var v: int := Value(u[..DigitRun(u)]);
    if signed && t[0] == '-' then -v else v
  }

  // ---------- round trip ----------

  lemma StrtolPrint(n: nat)
    ensures Strtol(Print(n)) == n
  {
    hide DigitRun, Value;
    var s := Digits(n);
    ValueDigits(n);
    assert s + "" == s && IsDigit(s[0]);
    DigitRunWhole(s, "");
    assert SkipSpaces(s) == s && s[..|s|] == s;
  }

  lemma {:induction false} ValueDigits(n: nat)
    ensures Value(Digits(n)) == n
  {
    if n >= 10 {
      ValueDigits(n / 10);
      assert Digits(n)[..|Digits(n)| - 1] == Digits(n / 10);
    }
  }

  lemma {:induction false} DigitRunWhole(s: string, rest: string)
    requires AllDigits(s)
    requires rest != "" ==> !IsDigit(rest[0])
    ensures DigitRun(s + rest) == |s|
  {
    if s != "" {
      assert (s + rest)[1..] == s[1..] + rest;
      DigitRunWhole(s[1..], rest);
    } else {
      assert s + rest == rest;
    }
  }

  lemma ParseDigits(d: string, rest: string, lo: int, hi: int)
    requires d != "" && AllDigits(d) && (rest == "" || rest[0] == LF || rest[0] == CR)
    ensures Parse(d + rest, lo, hi) == if lo <= Value(d) <= hi then Some(Value(d)) else None
  {
    hide Value, DigitRun;
    var s := d + rest;
    DigitRunWhole(d, rest);
    assert IsDigit(d[0]) && SkipSpaces(s) == s;
    assert s[..|d|] == d;
  }

  lemma ParseNegative(d: string, rest: string, lo: int, hi: int)
    requires d != "" && AllDigits(d) && (rest == "" || rest[0] == LF || rest[0] == CR)
    ensures var v: int := Value(d);
            Parse("-" + d + rest, lo, hi) == if lo <= -v <= hi then Some(-v) else None
  {
    hide Value, DigitRun;
    var s, t := d + rest, "-" + d + rest;
    DigitRunWhole(d, rest);
    assert t == "-" + s && t[0] == '-';
    assert SkipSpaces(t) == t;
    assert t[1..] == s;
    assert s[..|d|] == d;
  }

  /** Reading back a printed number, alone or in front of a line end, gives the number. */
  lemma ParsePrint(n: int, lo: int, hi: int, rest: string)
    requires rest == "" || rest[0] == LF || rest[0] == CR
    ensures Parse(Print(n) + rest, lo, hi) == if lo <= n <= hi then Some(n) else None
  {
    var d := Digits(if n < 0 then -n else n);
    ValueDigits(if n < 0 then -n else n);
    if n < 0 {
      ParseNegative(d, rest, lo, hi);
    } else {
      ParseDigits(d, rest, lo, hi);
    }
  }

  // ---------- the length of a numeral ----------

  lemma {:induction false} DigitsMonotone(m: nat, n: nat)
    requires m <= n
    ensures |Digits(m)| <= |Digits(n)|
  {
    if m >= 10 {
      DigitsMonotone(m / 10, n / 10);
    }
  }

  lemma TenTimes(n: nat)
    requires n >= 1
    ensures |Digits(10 * n)| == |Digits(n)| + 1
  {
    assert 10 * n / 10 == n;
  }

  lemma {:induction false} NumeralLength(n: nat, k: nat, bound: nat)
    requires k >= 1 && n < bound && bound == Pow10(k)
    ensures |Digits(n)| <= k
  {
    if k > 1 && n >= 10 {
      NumeralLength(n / 10, k - 1, Pow10(k - 1));
    }
  }

  function Pow10(k: nat): nat { if k == 0 then 1 else 10 * Pow10(k - 1) }

  lemma NineteenDigits(n: nat)
    requires n <= INT64_MAX
    ensures |Digits(n)| <= 19
  {
    assert Pow10(5) == 100000;
    assert Pow10(10) == 10 * Pow10(9) == 100 * Pow10(8) == 1000 * Pow10(7) == 10000 * Pow10(6) == 100000 * Pow10(5);
    assert Pow10(15) == 10 * Pow10(14) == 100 * Pow10(13) == 1000 * Pow10(12) == 10000 * Pow10(11)
      == 100000 * Pow10(10);
    assert Pow10(19) == 10 * Pow10(18) == 100 * Pow10(17) == 1000 * Pow10(16) == 10000 * Pow10(15);
    NumeralLength(n, 19, Pow10(19));
  }

  lemma {:induction false} DigitsAtMostValue(n: nat)
    ensures |Digits(n)| <= n + 1 && (n >= 1 ==> |Digits(n)| <= n)
  {
    if n >= 10 {
      DigitsAtMostValue(n / 10);
    }
  }

  /** The size of a file whose header contains its own size: "file-length: N" and a newline. */
  predicate SelfConsistent(baseSize: nat, n: nat) {
    n == baseSize + 14 + |Digits(n)|
  }

  /** The size that compute_file_length settles on. */
  function FileLength(baseSize: nat): (n: nat)
    ensures SelfConsistent(baseSize, n)
  {
    CorrectionSuffices(baseSize);
    var first := baseSize + 14 + |Digits(baseSize)|;
    if |Digits(first)| == |Digits(baseSize)| then first else baseSize + 14 + |Digits(first)|
  }

  /**
   * compute_file_length: one correction step is enough for every size, and the result is the
   * smallest size the header can truthfully claim (83 bytes of content leave both 99 and 100).
   */
  method ComputeFileLength(baseSize: nat) returns (candidate: nat)
    ensures SelfConsistent(baseSize, candidate) && candidate == FileLength(baseSize)
    ensures forall n: nat | SelfConsistent(baseSize, n) :: candidate <= n
  {
    hide Digits;
    var digits := |Print(baseSize)|;
    candidate := baseSize + 14 + digits;
    CorrectionSuffices(baseSize);
    if |Print(candidate)| != digits {
      candidate := baseSize + 14 + |Print(candidate)|;
    }
    forall n: nat | SelfConsistent(baseSize, n) ensures candidate <= n {
      LeastSize(baseSize, n);
    }
  }

  lemma LeastSize(baseSize: nat, n: nat)
    requires SelfConsistent(baseSize, n)
    ensures FileLength(baseSize) <= n
  {
    hide Digits;
    DigitsMonotone(baseSize, n);
    DigitsMonotone(baseSize + 14 + |Digits(baseSize)|, n);
  }

  lemma CorrectionSuffices(baseSize: nat)
    ensures var first := baseSize + 14 + |Digits(baseSize)|;
            var second := baseSize + 14 + |Digits(first)|;
            if |Digits(first)| == |Digits(baseSize)| then SelfConsistent(baseSize, first)
              else SelfConsistent(baseSize, second)
  {
    var first := baseSize + 14 + |Digits(baseSize)|;
    if baseSize >= 2 {
      DigitsAtMostValue(baseSize);
      DigitsMonotone(baseSize, first);
      DigitsMonotone(first, first + 1);
      DigitsMonotone(first + 1, 10 * baseSize);
      TenTimes(baseSize);
    }
  }
}
