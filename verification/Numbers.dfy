/** Number literals: how far the tokenisers of nbs-md-viewer read them, and a grammar for what they read. */
module Numbers {
  import opened Bytes
  import opened Highlight

  // ---------- the scan ----------

  /** Digits, then a fraction, then an exponent. */
  function DecimalEnd(line: string, i: nat, digit: char -> bool): (e: nat)
    requires i <= |line|
    ensures i <= e <= |line|
  {
    var a := RunEnd(line, i, digit);
    var b := if At(line, a) == '.' then RunEnd(line, a + 1, digit) else a;
    if At(line, b) == 'e' || At(line, b) == 'E' then
      RunEnd(line, if At(line, b + 1) == '+' || At(line, b + 1) == '-' then b + 2 else b + 1, IsDigit)
    else b
  }

  method SkipDecimal(line: string, start: nat, digit: char -> bool) returns (i: nat)
    requires start <= |line|
    ensures i == DecimalEnd(line, start, digit)
  {
    hide RunEnd;
    i := SkipRun(line, start, digit);
    if i < |line| && line[i] == '.' {
      i := SkipRun(line, i + 1, digit);
    }
    if i < |line| && (line[i] == 'e' || line[i] == 'E') {
      i := i + 1;
      if i < |line| && (line[i] == '+' || line[i] == '-') { i := i + 1; }
      i := SkipRun(line, i, IsDigit);
    }
  }

  // ---------- the grammar ----------

  predicate All(s: string, p: char -> bool) {
    forall k | 0 <= k < |s| :: p(s[k])
  }

  /** Nothing, or a point and digits. */
  predicate IsFraction(s: string, digit: char -> bool) {
    s == "" || (s[0] == '.' && All(s[1..], digit))
  }

  /** Nothing, or an "e" with an optional sign and digits. */
  predicate IsExponent(s: string) {
    s == "" || ((s[0] == 'e' || s[0] == 'E')
                && (All(s[1..], IsDigit) || (|s| > 1 && (s[1] == '+' || s[1] == '-') && All(s[2..], IsDigit))))
  }

  ghost predicate IsDecimal(s: string, digit: char -> bool) {
    exists a, b | 0 <= a <= b <= |s| :: All(s[..a], digit) && IsFraction(s[a..b], digit) && IsExponent(s[b..])
  }

  /** "0", one of two letters, and digits of the base. */
  predicate IsPrefixed(s: string, small: char, large: char, digit: char -> bool) {
    |s| >= 2 && s[0] == '0' && (s[1] == small || s[1] == large) && All(s[2..], digit)
  }

  /** A run of characters that numbers do not go on with. */
  predicate DigitsOnly(digit: char -> bool) {
    !digit('.') && !digit('e') && !digit('E')
  }

  lemma {:induction false} RunReaches(line: string, i: nat, k: nat, p: char -> bool)
    requires i <= k <= |line| && forall j | i <= j < k :: p(line[j])
    ensures k <= RunEnd(line, i, p)
    decreases k - i
  {
    if i < k {
      RunReaches(line, i + 1, k, p);
    }
  }

  /** A slice that is all digits lies within the run. */
  lemma SliceInRun(line: string, i: nat, k: nat, p: char -> bool)
    requires i <= k <= |line| && All(line[i..k], p)
    ensures k <= RunEnd(line, i, p)
  {
    forall j | i <= j < k ensures p(line[j]) {
      assert line[j] == line[i..k][j - i];
    }
    RunReaches(line, i, k, p);
  }

  lemma RunIsAll(line: string, i: nat, p: char -> bool)
    requires i <= |line|
    ensures All(line[i..RunEnd(line, i, p)], p)
  {
  }

  lemma ExponentEnd(line: string, b: nat, e: nat)
    requires b <= e <= |line| && IsExponent(line[b..e])
    ensures e <= if At(line, b) == 'e' || At(line, b) == 'E'
                 then RunEnd(line, if At(line, b + 1) == '+' || At(line, b + 1) == '-' then b + 2 else b + 1, IsDigit)
                   else b
  {
    hide RunEnd;
    var s := line[b..e];
    if s != "" {
      assert s[0] == line[b] && s[1..] == line[b + 1..e];
      if |s| > 1 {
        assert s[1] == line[b + 1] && s[2..] == line[b + 2..e];
        if s[1] == '+' || s[1] == '-' {
          assert !IsDigit(s[1..][0]);
          SliceInRun(line, b + 2, e, IsDigit);
        } else {
          SliceInRun(line, b + 1, e, IsDigit);
        }
      }
    }
  }

  lemma ExponentScanned(line: string, b: nat)
    requires b < |line| && (line[b] == 'e' || line[b] == 'E')
    ensures var from := if At(line, b + 1) == '+' || At(line, b + 1) == '-' then b + 2 else b + 1;
            IsExponent(line[b..RunEnd(line, from, IsDigit)])
  {
    hide RunEnd;
    var from := if At(line, b + 1) == '+' || At(line, b + 1) == '-' then b + 2 else b + 1;
    var e := RunEnd(line, from, IsDigit);
    RunIsAll(line, from, IsDigit);
    assert line[b..e][from - b..] == line[from..e];
  }

  lemma FractionEnd(line: string, a: nat, b: nat, digit: char -> bool)
    requires a <= b <= |line| && IsFraction(line[a..b], digit) && b > a
    ensures line[a] == '.' && b <= RunEnd(line, a + 1, digit)
  {
    hide RunEnd;
    assert line[a..b][0] == line[a] && line[a..b][1..] == line[a + 1..b];
    SliceInRun(line, a + 1, b, digit);
  }

  lemma SliceOf(line: string, i: nat, e: nat, a: nat, b: nat)
    requires i <= a <= b <= e <= |line|
    ensures line[i..e][a - i..b - i] == line[a..b]
  {
    var part := line[i..e];
    assert |part[a - i..b - i]| == |line[a..b]|;
    forall k | 0 <= k < b - a ensures part[a - i..b - i][k] == line[a..b][k] {
      assert part[a - i + k] == line[a + k];
    }
  }

  lemma Slices(line: string, i: nat, e: nat, a: nat, b: nat)
    requires i <= a <= b <= e <= |line|
    ensures line[i..e][..a - i] == line[i..a] && line[i..e][a - i..b - i] == line[a..b]
            && line[i..e][b - i..] == line[b..e]
  {
    SliceOf(line, i, e, a, b);
    assert line[i..e][..a - i] == line[i..a];
    assert line[i..e][b - i..] == line[b..e];
  }

  /** What the scan reads is in the grammar. */
  lemma DecimalScanned(line: string, i: nat, digit: char -> bool)
    requires i <= |line|
    ensures IsDecimal(line[i..DecimalEnd(line, i, digit)], digit)
  {
    hide RunEnd, All;
    var a := RunEnd(line, i, digit);
    var b := if At(line, a) == '.' then RunEnd(line, a + 1, digit) else a;
    var e := DecimalEnd(line, i, digit);
    RunIsAll(line, i, digit);
    FractionScanned(line, a, digit);
    if e > b {
      ExponentScanned(line, b);
    }
    InParts(line, i, a, b, e, digit);
  }

  lemma FractionScanned(line: string, a: nat, digit: char -> bool)
    requires a <= |line|
    ensures IsFraction(line[a..if At(line, a) == '.' then RunEnd(line, a + 1, digit) else a], digit)
  {
    hide RunEnd, All;
    if At(line, a) == '.' {
      var b := RunEnd(line, a + 1, digit);
      RunIsAll(line, a + 1, digit);
      assert line[a..b][1..] == line[a + 1..b];
    }
  }

  lemma InParts(line: string, i: nat, a: nat, b: nat, e: nat, digit: char -> bool)
    requires i <= a <= b <= e <= |line|
    requires All(line[i..a], digit) && IsFraction(line[a..b], digit) && IsExponent(line[b..e])
    ensures IsDecimal(line[i..e], digit)
  {
    hide All, IsFraction, IsExponent;
    Slices(line, i, e, a, b);
    var s := line[i..e];
    assert All(s[..a - i], digit) && IsFraction(s[a - i..b - i], digit) && IsExponent(s[b - i..]);
  }

  /** No longer front of the rest of the line is in it. */
  lemma DecimalLongest(line: string, i: nat, e: nat, digit: char -> bool)
    requires i <= e <= |line| && DigitsOnly(digit) && IsDecimal(line[i..e], digit)
    ensures e <= DecimalEnd(line, i, digit)
  {
    hide All, IsFraction, IsExponent, DecimalEnd;
    var s := line[i..e];
    var a, b :| 0 <= a <= b <= |s| && All(s[..a], digit) && IsFraction(s[a..b], digit) && IsExponent(s[b..]);
    Slices(line, i, e, i + a, i + b);
    PartsLongest(line, i, i + a, i + b, e, digit);
  }

  lemma PartsLongest(line: string, i: nat, a: nat, b: nat, e: nat, digit: char -> bool)
    requires i <= a <= b <= e <= |line| && DigitsOnly(digit)
    requires All(line[i..a], digit) && IsFraction(line[a..b], digit) && IsExponent(line[b..e])
    ensures e <= DecimalEnd(line, i, digit)
  {
    hide RunEnd, All, IsFraction, IsExponent;
    SliceInRun(line, i, a, digit);
    ExponentEnd(line, b, e);
    if b > a {
      FractionEnd(line, a, b, digit);
      InRun(line, i, a, digit);
    }
    if e > b {
      ExponentStarts(line, b, e);
      InRun(line, if b > a then a + 1 else i, b, digit);
    }
  }

  lemma ExponentStarts(line: string, b: nat, e: nat)
    requires b < e <= |line| && IsExponent(line[b..e])
    ensures line[b] == 'e' || line[b] == 'E'
  {
    assert line[b..e][0] == line[b];
  }

  lemma InRun(line: string, i: nat, k: nat, p: char -> bool)
    requires i <= k < |line| && k <= RunEnd(line, i, p) && !p(line[k])
    ensures k == RunEnd(line, i, p)
  {
  }

  lemma PrefixedScanned(line: string, i: nat, small: char, large: char, digit: char -> bool)
    requires i + 1 < |line| && line[i] == '0' && (line[i + 1] == small || line[i + 1] == large)
    ensures IsPrefixed(line[i..RunEnd(line, i + 2, digit)], small, large, digit)
  {
    hide RunEnd, All;
    var e := RunEnd(line, i + 2, digit);
    RunIsAll(line, i + 2, digit);
    assert line[i..e][2..] == line[i + 2..e];
  }

  lemma PrefixedLongest(line: string, i: nat, e: nat, small: char, large: char, digit: char -> bool)
    requires i <= e <= |line| && IsPrefixed(line[i..e], small, large, digit)
    ensures i + 1 < |line| && line[i] == '0' && (line[i + 1] == small || line[i + 1] == large)
    ensures e <= RunEnd(line, i + 2, digit)
  {
    hide RunEnd, All;
    var s := line[i..e];
    assert s[0] == line[i] && s[1] == line[i + 1] && s[2..] == line[i + 2..e];
    SliceInRun(line, i + 2, e, digit);
  }

  /** Behind a prefix the decimal scan stops at its letter. */
  lemma DecimalStops(line: string, i: nat, digit: char -> bool)
    requires i + 1 < |line| && line[i] == '0' && digit('0') && !digit(line[i + 1])
    requires line[i + 1] != '.' && line[i + 1] != 'e' && line[i + 1] != 'E'
    ensures DecimalEnd(line, i, digit) == i + 1
  {
    assert RunEnd(line, i + 1, digit) == i + 1;
  }
}
