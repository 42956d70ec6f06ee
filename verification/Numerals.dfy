/** Exactly which texts the number readers take, and for which number. */
module Numerals {
  import opened Bytes
  import opened Decimal

  predicate AllSpaces(s: string) {
    forall i | 0 <= i < |s| :: IsSpace(s[i])
  }

  predicate AllZeros(s: string) {
    forall i | 0 <= i < |s| :: s[i] == '0'
  }

  predicate EndsNumeral(rest: string) {
    rest == "" || rest[0] == '\n' || rest[0] == '\r'
  }

  /** Digits that stand for `n`: its numeral, perhaps behind zeros. */
  ghost predicate StandFor(d: string, n: nat) {
    exists zeros :: AllZeros(zeros) && d == zeros + Print(n)
  }

  function Negated(sign: string, n: int): int { if sign == "-" then -n else n }

  ghost predicate Parts(s: string, blank: string, sign: string, d: string, rest: string) {
    && s == blank + (sign + (d + rest)) && AllSpaces(blank) && (sign == "" || sign == "+" || sign == "-")
    && d != "" && AllDigits(d)
  }

  /** Blanks, a sign or none, digits, and then nothing or a line end. */
  ghost predicate Numeral(s: string, n: int) {
    exists blank, sign, d, rest, v: nat ::
      Parts(s, blank, sign, d, rest) && EndsNumeral(rest) && StandFor(d, v) && n == Negated(sign, v)
  }

  // ---------- the value of digits ----------

  lemma {:induction false} ZerosInFront(zeros: string, d: string)
    requires AllZeros(zeros) && AllDigits(d)
    ensures AllDigits(zeros + d) && Value(zeros + d) == Value(d)
  {
    if d == "" {
      assert zeros + d == zeros;
      ZeroValue(zeros);
    } else {
      var front := d[..|d| - 1];
      ZerosInFront(zeros, front);
      assert (zeros + d)[..|zeros + d| - 1] == zeros + front;
    }
  }

  lemma {:induction false} ZeroValue(zeros: string)
    requires AllZeros(zeros)
    ensures AllDigits(zeros) && Value(zeros) == 0
  {
    if zeros != "" {
      ZeroValue(zeros[..|zeros| - 1]);
    }
  }

  lemma {:induction false} StandsForValue(d: string)
    requires d != "" && AllDigits(d)
    ensures StandFor(d, Value(d))
  {
    hide Print;
    var front, last := d[..|d| - 1], d[|d| - 1];
    assert IsDigit(last);
    assert d == front + [last];
    if front == "" {
      OneDigit(last);
    } else {
      StandsForValue(front);
      var zeros :| AllZeros(zeros) && front == zeros + Print(Value(front));
      OneMoreDigit(zeros, Value(front), last);
      assert Value(d) == 10 * Value(front) + (last as int - '0' as int);
    }
  }

  lemma OneDigit(c: char)
    requires IsDigit(c)
    ensures Value([c]) == c as int - '0' as int && StandFor([c], c as int - '0' as int)
  {
    assert Value([c]) == Value([c][..0]) * 10 + (c as int - '0' as int);
    assert AllZeros("") && [c] == "" + Print(c as int - '0' as int);
  }

  lemma OneMoreDigit(zeros: string, n: nat, c: char)
    requires AllZeros(zeros) && IsDigit(c)
    ensures StandFor(zeros + Print(n) + [c], 10 * n + (c as int - '0' as int))
  {
    var v := 10 * n + (c as int - '0' as int);
    if n == 0 {
      assert Print(0) == "0" && Print(v) == [c];
      assert zeros + Print(n) + [c] == (zeros + "0") + Print(v);
    } else {
      assert v / 10 == n && v % 10 == c as int - '0' as int;
      assert Print(v) == Print(n) + [c];
      assert zeros + Print(n) + [c] == zeros + Print(v);
    }
  }

  lemma ValueStands(d: string, v: nat)
    requires d != "" && AllDigits(d)
    ensures StandFor(d, v) <==> v == Value(d)
  {
    StandsForValue(d);
    if StandFor(d, v) {
      var zeros :| AllZeros(zeros) && d == zeros + Print(v);
      ZerosInFront(zeros, Print(v));
      ValueDigits(v);
    }
  }

  // ---------- reading ----------

  lemma {:induction false} SpacesSkipped(blank: string, t: string)
    requires AllSpaces(blank) && (t != "" ==> !IsSpace(t[0]))
    ensures SkipSpaces(blank + t) == t
  {
    if blank == "" {
      assert blank + t == t;
    } else {
      assert (blank + t)[1..] == blank[1..] + t;
      SpacesSkipped(blank[1..], t);
    }
  }

  lemma {:induction false} SkippedSpaces(s: string)
    ensures var t := SkipSpaces(s);
            |t| <= |s| && AllSpaces(s[..|s| - |t|]) && s == s[..|s| - |t|] + t && (t != "" ==> !IsSpace(t[0]))
  {
    if s != "" && IsSpace(s[0]) {
      SkippedSpaces(s[1..]);
      var t := SkipSpaces(s);
      assert s[..|s| - |t|] == [s[0]] + s[1..][..|s| - 1 - |t|];
    } else {
      assert s[..0] == "";
    }
  }

  /** The pieces of a text determine what the readers see. */
  lemma PartsRead(s: string, blank: string, sign: string, d: string, rest: string)
    requires Parts(s, blank, sign, d, rest) && (rest == "" || !IsDigit(rest[0]))
    ensures Strtol(s) == Negated(sign, Value(d))
    ensures forall lo, hi :: Parse(s, lo, hi)
              == if EndsNumeral(rest) && lo <= Negated(sign, Value(d)) <= hi then Some(Negated(sign, Value(d)))
                else None
  {
    hide Value, DigitRun;
    var t := sign + (d + rest);
    assert IsDigit(d[0]);
    SpacesSkipped(blank, t);
    var u := d + rest;
    assert t == if sign == "" then u else [sign[0]] + u;
    assert sign != "" ==> t[1..] == u;
    DigitRunWhole(d, rest);
    assert u[..|d|] == d;
    assert rest != "" ==> u[|d|] == rest[0];
  }

  /** A text has these pieces if it has a digit behind blanks and at most one sign. */
  lemma Pieces(s: string) returns (blank: string, sign: string, d: string, rest: string)
    requires var t := SkipSpaces(s);
             var u := if t != "" && (t[0] == '-' || t[0] == '+') then t[1..] else t;
             DigitRun(u) > 0
    ensures Parts(s, blank, sign, d, rest) && (rest == "" || !IsDigit(rest[0]))
  {
    hide DigitRun;
    SkippedSpaces(s);
    var t := SkipSpaces(s);
    blank := s[..|s| - |t|];
    var signed := t != "" && (t[0] == '-' || t[0] == '+');
    sign := if signed then t[..1] else "";
    var u := if signed then t[1..] else t;
    var n := DigitRun(u);
    d, rest := u[..n], u[n..];
    assert u == d + rest && t == sign + u;
  }

  /** The checked reader takes exactly the numerals in its range. */
  lemma ParseIff(s: string, lo: int, hi: int, n: int)
    ensures Parse(s, lo, hi) == Some(n) <==> Numeral(s, n) && lo <= n <= hi
  {
    hide DigitRun, Value, SkipSpaces;
    if Parse(s, lo, hi) == Some(n) {
      var blank, sign, d, rest := Pieces(s);
      PartsRead(s, blank, sign, d, rest);
      ValueStands(d, Value(d));
    }
    if Numeral(s, n) {
      var blank, sign, d, rest, v: nat :|
        Parts(s, blank, sign, d, rest) && EndsNumeral(rest) && StandFor(d, v) && n == Negated(sign, v);
      PartsRead(s, blank, sign, d, rest);
      ValueStands(d, v);
    }
  }
}
