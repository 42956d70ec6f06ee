/** The base64 codec of nbs-chat (section 4 of RFC 4648), src/nbs-chat/base64.c. */
module Base64 {
  import opened Bytes

  const INVALID := 255

  // ---------- the two tables ----------

  /** encode_table: the character of a sextet. */
  function EncodeTable(n: int): (c: char)
    requires 0 <= n < 64
  {
    if n < 26 then ('A' as int + n) as char
    else if n < 52 then ('a' as int + n - 26) as char
    else if n < 62 then ('0' as int + n - 52) as char
    else if n == 62 then '+'
    else '/'
  }

  /** decode_table: the sextet of a character, 64 for padding, INVALID for anything else. */
  function DecodeTable(c: char): int {
    if 'A' <= c <= 'Z' then c as int - 'A' as int
    else if 'a' <= c <= 'z' then c as int - 'a' as int + 26
    else if '0' <= c <= '9' then c as int - '0' as int + 52
    else if c == '+' then 62
    else if c == '/' then 63
    else if c == '=' then 64
    else INVALID
  }

  predicate IsValidChar(c: char) {
    c == '=' || c == '+' || c == '/' || 'A' <= c <= 'Z' || 'a' <= c <= 'z' || '0' <= c <= '9'
  }

  /** A character of the alphabet proper, padding excluded. */
  predicate IsAlpha(c: char) {
    IsValidChar(c) && c != '='
  }

  // ---------- specification ----------

  /** Four characters for every three bytes or part of three. */
  function EncodedLength(n: nat): nat {
    if n == 0 then 0 else if n <= 3 then 4 else 4 + EncodedLength(n - 3)
  }

  /** base64_encoded_size without the NUL. */
  lemma {:induction false} EncodedLengthIs(n: nat)
    ensures EncodedLength(n) == (n + 2) / 3 * 4
  {
    if n > 3 {
      EncodedLengthIs(n - 3);
    }
  }

  /** Sextet `k` of the 24-bit number made of three bytes. */
  function SextetOf(a: octet, b: octet, c: octet, k: nat): (v: int)
    requires k < 4
    ensures 0 <= v < 64
  {
    if k == 0 then a as int / 4
    else if k == 1 then a as int % 4 * 16 + b as int / 16
    else if k == 2 then b as int % 16 * 4 + c as int / 64
    else c as int % 64
  }

  /** The first `n` characters of a group, the rest padding. */
  function Group(a: octet, b: octet, c: octet, n: nat): (t: string)
    requires 2 <= n <= 4
    ensures |t| == 4
  {
    [ EncodeTable(SextetOf(a, b, c, 0)),
      EncodeTable(SextetOf(a, b, c, 1)),
      if n < 3 then '=' else EncodeTable(SextetOf(a, b, c, 2)),
      if n < 4 then '=' else EncodeTable(SextetOf(a, b, c, 3))]
  }

  /** The RFC's encoding: three bytes make four characters, a short last group is padded. */
  function Encode(x: seq<octet>): (s: string)
    ensures |s| == EncodedLength(|x|)
  {
    if |x| == 0 then ""
    else if |x| == 1 then Group(x[0], NUL, NUL, 2)
    else if |x| == 2 then Group(x[0], x[1], NUL, 3)
    else Group(x[0], x[1], x[2], 4) + Encode(x[3..])
  }

  /** One block of the grammar: four alphabet characters, or three and "=", or two and "==". */
  predicate FinalBlock(t: string) {
    && |t| == 4 && IsAlpha(t[0]) && IsAlpha(t[1])
    && ((IsAlpha(t[2]) && (IsAlpha(t[3]) || t[3] == '=')) || (t[2] == '=' && t[3] == '='))
  }

  /** (A{4})*(A{4}|A{3}=|A{2}==), or nothing. */
  predicate Grammar(t: string) {
    || |t| == 0
    || FinalBlock(t)
    || (|t| > 4 && IsAlpha(t[0]) && IsAlpha(t[1]) && IsAlpha(t[2]) && IsAlpha(t[3]) && Grammar(t[4..]))
  }

  function Pads(t: string): nat
    requires |t| >= 2
  {
    (if t[|t| - 1] == '=' then 1 else 0) + (if t[|t| - 2] == '=' then 1 else 0)
  }

  /** The masked table value of a character: padding counts as zero. */
  function Sextet(c: char): (v: int)
    ensures 0 <= v < 64
  {
    DecodeTable(c) % 64
  }

  /** The number the first four characters stand for. */
  function Triple(t: string): (n: int)
    requires |t| >= 4
    ensures 0 <= n < 0x100_0000
  {
    Sextet(t[0]) * 262144 + Sextet(t[1]) * 4096 + Sextet(t[2]) * 64 + Sextet(t[3])
  }

  function ByteOf(n: int, k: nat): octet
    requires 0 <= n < 0x100_0000 && k < 3
  {
    (if k == 0 then n / 65536 else if k == 1 then n / 256 % 256 else n % 256) as char
  }

  function TripleBytes(n: int): (b: seq<octet>)
    requires 0 <= n < 0x100_0000
    ensures |b| == 3
  {
    [ByteOf(n, 0), ByteOf(n, 1), ByteOf(n, 2)]
  }

  /** The bytes of a grammatical text. */
  function Decode(t: string): (x: seq<octet>)
    requires Grammar(t)
    ensures if t == "" then x == [] else |t| >= 4 && 4 * |x| == 3 * |t| - 4 * Pads(t)
  {
    if |t| == 0 then []
    else if |t| == 4 then TripleBytes(Triple(t))[..3 - Pads(t)]
    else TripleBytes(Triple(t)) + Decode(t[4..])
  }

  predicate IsTrailing(c: char) { c == '\n' || c == '\r' || c == ' ' }

  /** The text without its trailing newlines, carriage returns and spaces. */
  function Strip(s: string): (t: string)
    ensures t <= s
    ensures t != "" ==> !IsTrailing(t[|t| - 1])
  {
    if s != "" && IsTrailing(s[|s| - 1]) then Strip(s[..|s| - 1]) else s
  }

  // ---------- round trips ----------

  /** `c` is the alphabet character of sextet `n`. */
  predicate Codes(c: char, n: int) {
    IsAlpha(c) && Sextet(c) == n
  }

  lemma TablesInverse(n: int)
    requires 0 <= n < 64
    ensures Codes(EncodeTable(n), n)
  {
  }

  lemma SextetsOfBytes(a: int, b: int, c: int)
    requires 0 <= a < 256 && 0 <= b < 256 && 0 <= c < 256
    ensures a / 4 * 262144 + (a % 4 * 16 + b / 16) * 4096 + (b % 16 * 4 + c / 64) * 64 + c % 64 == a * 65536 + b * 256
            + c
  {
  }

  lemma BytesOfNumber(a: int, b: int, c: int)
    requires 0 <= a < 256 && 0 <= b < 256 && 0 <= c < 256
    ensures (a * 65536 + b * 256 + c) / 65536 == a
    ensures (a * 65536 + b * 256 + c) / 256 == a * 256 + b && (a * 256 + b) % 256 == b
    ensures (a * 65536 + b * 256 + c) % 256 == c
  {
    var n := a * 65536 + b * 256 + c;
    assert n == (a * 256 + b) * 256 + c;
  }

  /** Four sextets of three bytes decode to those bytes. */
  lemma SextetsRoundTrip(a: octet, b: octet, c: octet, t: string)
    requires |t| == 4 && forall i | 0 <= i < 4 :: Sextet(t[i]) == SextetOf(a, b, c, i)
    ensures TripleBytes(Triple(t)) == [a, b, c]
  {
    SextetsOfBytes(a as int, b as int, c as int);
    BytesOfNumber(a as int, b as int, c as int);
  }

  /** A group decodes to its bytes; what padding replaces must be zero. */
  lemma GroupRoundTrip(a: octet, b: octet, c: octet, n: nat)
    requires 2 <= n <= 4
    requires n < 4 ==> c == NUL
    requires n < 3 ==> b == NUL
    ensures FinalBlock(Group(a, b, c, n)) && (n == 4 ==> AlphaBlock(Group(a, b, c, n)))
    ensures Pads(Group(a, b, c, n)) == 4 - n
    ensures TripleBytes(Triple(Group(a, b, c, n))) == [a, b, c]
  {
    forall k | 0 <= k < 4
      ensures Codes(EncodeTable(SextetOf(a, b, c, k)), SextetOf(a, b, c, k))
    {
      TablesInverse(SextetOf(a, b, c, k));
    }
    SextetsRoundTrip(a, b, c, Group(a, b, c, n));
  }

  predicate AlphaBlock(g: string) {
    |g| == 4 && forall i | 0 <= i < 4 :: IsAlpha(g[i])
  }

  lemma DecodeCons(g: string, rest: string)
    requires AlphaBlock(g) && Grammar(rest)
    ensures Grammar(g + rest) && Decode(g + rest) == TripleBytes(Triple(g)) + Decode(rest)
  {
    var t := g + rest;
    assert t[4..] == rest && t[0] == g[0] && t[1] == g[1] && t[2] == g[2] && t[3] == g[3];
    if rest != "" {
      assert |rest| >= 4;
      assert t[|t| - 1] == rest[|rest| - 1] && t[|t| - 2] == rest[|rest| - 2];
    }
  }

  /** Decoding an encoding gives the bytes back, whatever they are. */
  lemma {:induction false} DecodeEncode(x: seq<octet>)
    ensures Grammar(Encode(x)) && Decode(Encode(x)) == x
  {
    if |x| == 0 {
    } else if |x| < 3 {
      ShortRoundTrip(x);
    } else {
      GroupRoundTrip(x[0], x[1], x[2], 4);
      DecodeEncode(x[3..]);
      DecodeCons(Group(x[0], x[1], x[2], 4), Encode(x[3..]));
      assert x == [x[0], x[1], x[2]] + x[3..];
    }
  }

  lemma ShortRoundTrip(x: seq<octet>)
    requires 1 <= |x| <= 2
    ensures Grammar(Encode(x)) && Decode(Encode(x)) == x
  {
    hide SextetOf, EncodeTable, Sextet, ByteOf, Triple, IsAlpha, TripleBytes, Group, FinalBlock, Pads, AlphaBlock;
    var b := if |x| == 1 then NUL else x[1];
    GroupRoundTrip(x[0], b, NUL, |x| + 1);
    assert Encode(x) == Group(x[0], b, NUL, |x| + 1);
    assert x == [x[0], b, NUL][..|x|];
  }

  // ---------- which texts are canonical ----------

  /** Position of the last character that carries data. */
  function LastSextet(t: string): (p: nat)
    requires Grammar(t) && t != ""
    ensures p < |t|
  {
    var _ := Decode(t);
    |t| - 1 - Pads(t)
  }

  /** The value of the bits of the last sextet that no byte uses. */
  function UnusedBits(t: string): int
    requires Grammar(t) && t != ""
  {
    var _ := Decode(t);
    Sextet(t[LastSextet(t)]) % (if Pads(t) == 0 then 1 else if Pads(t) == 1 then 4 else 16)
  }

  /** The text with those bits cleared. */
  function Cleared(t: string): string
    requires Grammar(t) && t != ""
  {
    t[LastSextet(t) := EncodeTable(Sextet(t[LastSextet(t)]) - UnusedBits(t))]
  }

  lemma TablesInverseChar(c: char)
    requires IsAlpha(c)
    ensures EncodeTable(Sextet(c)) == c
  {
  }

  lemma BytesOfSextets(s0: int, s1: int, s2: int, s3: int, n: int)
    requires 0 <= s0 < 64 && 0 <= s1 < 64 && 0 <= s2 < 64 && 0 <= s3 < 64
    requires n == s0 * 262144 + s1 * 4096 + s2 * 64 + s3
    ensures n / 65536 == s0 * 4 + s1 / 16
    ensures n / 256 % 256 == s1 % 16 * 16 + s2 / 4
    ensures n % 256 == s2 % 4 * 64 + s3
  {
    assert n == (s0 * 4 + s1 / 16) * 65536 + (s1 % 16 * 16 + s2 / 4) * 256 + (s2 % 4 * 64 + s3);
    BytesOfNumber(s0 * 4 + s1 / 16, s1 % 16 * 16 + s2 / 4, s2 % 4 * 64 + s3);
  }

  /** Encoding the bytes of four characters gives their sextets back. */
  lemma BlockSextets(t: string)
    requires |t| == 4
    ensures var b := TripleBytes(Triple(t));
            && SextetOf(b[0], b[1], b[2], 0) == Sextet(t[0]) && SextetOf(b[0], b[1], b[2], 1) == Sextet(t[1])
            && SextetOf(b[0], b[1], b[2], 2) == Sextet(t[2]) && SextetOf(b[0], b[1], b[2], 3) == Sextet(t[3])
  {
    BytesOfSextets(Sextet(t[0]), Sextet(t[1]), Sextet(t[2]), Sextet(t[3]), Triple(t));
  }

  lemma AlphaBlockEncodes(g: string)
    requires AlphaBlock(g)
    ensures var b := TripleBytes(Triple(g)); Group(b[0], b[1], b[2], 4) == g
  {
    BlockSextets(g);
    forall i | 0 <= i < 4 ensures EncodeTable(Sextet(g[i])) == g[i] {
      TablesInverseChar(g[i]);
    }
  }

  /** Dropping the third byte, or the second and third, clears the low bits of the last sextet in use. */
  lemma ClearLowBits(a: octet, b: octet, c: octet)
    ensures SextetOf(a, b, NUL, 2) == SextetOf(a, b, c, 2) - SextetOf(a, b, c, 2) % 4
    ensures SextetOf(a, NUL, NUL, 1) == SextetOf(a, b, c, 1) - SextetOf(a, b, c, 1) % 16
    ensures SextetOf(a, b, NUL, 0) == SextetOf(a, NUL, NUL, 0) == SextetOf(a, b, c, 0)
            && SextetOf(a, b, NUL, 1) == SextetOf(a, b, c, 1)
  {
    var x, y := c as int, b as int;
    assert (y % 16 * 4 + x / 64) % 4 == x / 64;
    assert (a as int % 4 * 16 + y / 16) % 16 == y / 16;
  }

  lemma OnePad(t: string)
    requires FinalBlock(t) && Pads(t) == 1
    ensures Encode(Decode(t)) == Cleared(t)
  {
    hide DecodeTable, EncodeTable, ByteOf, Triple, IsValidChar, TripleBytes, SextetOf, Sextet;
    var b := TripleBytes(Triple(t));
    BlockSextets(t);
    TablesInverseChar(t[0]);
    TablesInverseChar(t[1]);
    ClearLowBits(b[0], b[1], b[2]);
    assert Decode(t) == [b[0], b[1]];
    assert Encode([b[0], b[1]]) == Group(b[0], b[1], NUL, 3);
  }

  lemma TwoPads(t: string)
    requires FinalBlock(t) && Pads(t) == 2
    ensures Encode(Decode(t)) == Cleared(t)
  {
    hide DecodeTable, EncodeTable, ByteOf, Triple, IsValidChar, TripleBytes, SextetOf, Sextet;
    var b := TripleBytes(Triple(t));
    BlockSextets(t);
    TablesInverseChar(t[0]);
    ClearLowBits(b[0], b[1], b[2]);
    assert Decode(t) == [b[0]];
    assert Encode([b[0]]) == Group(b[0], NUL, NUL, 2);
  }

  lemma EncodeCons(g: string, x: seq<octet>)
    requires AlphaBlock(g)
    ensures Encode(TripleBytes(Triple(g)) + x) == g + Encode(x)
  {
    AlphaBlockEncodes(g);
    assert (TripleBytes(Triple(g)) + x)[3..] == x;
  }

  lemma ClearedCons(g: string, rest: string)
    requires AlphaBlock(g) && Grammar(rest) && rest != ""
    ensures Grammar(g + rest) && Cleared(g + rest) == g + Cleared(rest)
  {
    hide DecodeTable, EncodeTable, Sextet, ByteOf, Triple, TripleBytes, IsAlpha;
    DecodeCons(g, rest);
    var t := g + rest;
    assert t[|t| - 1] == rest[|rest| - 1] && t[|t| - 2] == rest[|rest| - 2];
    assert LastSextet(t) == 4 + LastSextet(rest);
  }

  lemma ClearedFull(t: string)
    requires AlphaBlock(t)
    ensures Cleared(t) == t
  {
    TablesInverseChar(t[3]);
    assert LastSextet(t) == 3;
  }

  /**
   * Encoding what a grammatical text decodes to gives the text with the unused bits of its
   * last sextet cleared (section 3.5 of RFC 4648), and nothing else changed.
   */
  lemma {:induction false} EncodeDecode(t: string)
    requires Grammar(t) && t != ""
    ensures Encode(Decode(t)) == Cleared(t)
  {
    if |t| == 4 && Pads(t) == 1 {
      OnePad(t);
    } else if |t| == 4 && Pads(t) == 2 {
      TwoPads(t);
    } else {
      var g, rest := t[..4], t[4..];
      assert t == g + rest;
      DecodeCons(g, rest);
      EncodeCons(g, Decode(rest));
      if rest == "" {
        ClearedFull(g);
      } else {
        EncodeDecode(rest);
        ClearedCons(g, rest);
      }
    }
  }

  lemma EncodeTableInjective(m: int, n: int)
    requires 0 <= m < 64 && 0 <= n < 64 && m != n
    ensures EncodeTable(m) != EncodeTable(n)
  {
  }

  lemma ReplaceIff(t: string, p: nat, v: int, w: int)
    requires p < |t| && 0 <= v < 64 && 0 <= w < 64 && t[p] == EncodeTable(v)
    ensures t[p := EncodeTable(w)] == t <==> v == w
  {
    assert t[p := EncodeTable(w)][p] == EncodeTable(w);
    if v != w {
      EncodeTableInjective(v, w);
    }
  }

  /** A grammatical text is the encoding of its bytes exactly when its unused bits are zero. */
  lemma CanonicalIff(t: string)
    requires Grammar(t) && t != ""
    ensures Encode(Decode(t)) == t <==> UnusedBits(t) == 0
  {
    hide DecodeTable, EncodeTable, Sextet, IsAlpha, FinalBlock, Encode, Decode;
    EncodeDecode(t);
    LastIsAlpha(t);
    var p, u := LastSextet(t), UnusedBits(t);
    var v := Sextet(t[p]);
    TablesInverseChar(t[p]);
    assert 0 <= v - u && Cleared(t) == t[p := EncodeTable(v - u)];
    ReplaceIff(t, p, v, v - u);
  }

  lemma LastIsAlpha(t: string)
    requires Grammar(t) && t != ""
    ensures IsAlpha(t[LastSextet(t)])
  {
    if |t| > 4 {
      LastIsAlpha(t[4..]);
    }
  }

  // ---------- the grammar, position by position ----------

  /** The validation the decoder does: the alphabet up to the padding, which ends the text. */
  predicate Validated(t: string) {
    && |t| % 4 == 0
    && (t != "" ==>
        && (forall i | 0 <= i < |t| - 2 :: IsAlpha(t[i]))
        && ((IsAlpha(t[|t| - 2]) && (IsAlpha(t[|t| - 1]) || t[|t| - 1] == '='))
           || (t[|t| - 2] == '=' && t[|t| - 1] == '=')))
  }

  lemma {:induction false} GrammarIsValidated(t: string)
    ensures Grammar(t) <==> Validated(t)
  {
    if |t| > 4 {
      var rest := t[4..];
      GrammarIsValidated(rest);
      assert |t| % 4 == |rest| % 4;
      assert forall i | 4 <= i < |t| :: t[i] == rest[i - 4];
      if Validated(rest) && |t| >= 8 && IsAlpha(t[0]) && IsAlpha(t[1]) && IsAlpha(t[2]) && IsAlpha(t[3]) {
        assert Validated(t);
      }
      if Validated(t) {
        forall i | 0 <= i < |rest| - 2 ensures IsAlpha(rest[i]) {
          assert rest[i] == t[i + 4];
        }
      }
    }
  }

  // ---------- the code ----------

  /**
   * base64_encode: fills `output` with the encoding and a NUL and returns its length, or
   * returns -1 and leaves the buffer alone when it is too small.
   */
  method EncodeBuffer(input: seq<octet>, output: array<char>) returns (rc: int)
    requires |input| <= INT_MAX / 4 * 3
    modifies output
    ensures rc == if output.Length < EncodedLength(|input|) + 1 then -1 else EncodedLength(|input|)
    ensures rc == -1 ==> output[..] == old(output[..])
    ensures rc != -1 ==> output[..] == Encode(input) + [NUL] + old(output[..])[rc + 1..]
  {
    var needed := EncodedLength(|input|) + 1;
    if output.Length < needed {
      return -1;
    }
    var j := EncodeBytes(input, output);
    ghost var before := output[..];
    PutNul(output, j);
    Splice(before, output[..], Encode(input), [NUL], old(output[..]));
    return j;
  }

  method EncodeBytes(input: seq<octet>, output: array<char>) returns (j: nat)
    requires EncodedLength(|input|) <= output.Length
    modifies output
    ensures j == EncodedLength(|input|)
    ensures output[..] == Encode(input) + old(output[..])[j..]
  {
    var i;
    i, j := EncodeGroups(input, output);
    ghost var done :| |done| == j && done + Encode(input[i..]) == Encode(input)
      && output[..] == done + old(output[..])[j..];
    if i < |input| {
      ghost var groups := output[..];
      j := EncodeTail(input[i..], output, j);
      Splice(groups, output[..], done, Encode(input[i..]), old(output[..]));
    } else {
      assert Encode(input[i..]) == "" && done == Encode(input);
    }
  }

  method PutNul(output: array<char>, j: nat)
    requires j < output.Length
    modifies output
    ensures output[..] == old(output[..])[..j] + [NUL] + old(output[..])[j + 1..]
  {
    output[j] := NUL;
  }

  /** The loop over three-byte groups. */
  method EncodeGroups(input: seq<octet>, output: array<char>) returns (i: nat, j: nat)
    requires EncodedLength(|input|) <= output.Length
    modifies output
    ensures i <= |input| < i + 3 && j == EncodedLength(|input|) - EncodedLength(|input| - i)
    ensures exists done ::
              |done| == j && done + Encode(input[i..]) == Encode(input) && output[..] == done + old(output[..])[j..]
  {
    i, j := 0, 0;
    ghost var done := "";
    while i + 2 < |input|
      invariant i <= |input| && j == |done| == EncodedLength(|input|) - EncodedLength(|input| - i)
      invariant done + Encode(input[i..]) == Encode(input)
      invariant output[..] == done + old(output[..])[j..]
    {
      ghost var before := output[..];
      PutGroup(output, j, input[i], input[i + 1], input[i + 2], 4);
      ghost var g := Group(input[i], input[i + 1], input[i + 2], 4);
      Splice(before, output[..], done, g, old(output[..]));
      EncodeStep(input, i, done);
      done := done + g;
      i, j := i + 3, j + 4;
    }
  }

  /** The remaining one or two bytes. */
  method EncodeTail(rest: seq<octet>, output: array<char>, start: nat) returns (j: nat)
    requires 1 <= |rest| <= 2 && start + 4 <= output.Length
    modifies output
    ensures j == start + 4
    ensures output[..] == old(output[..])[..start] + Encode(rest) + old(output[..])[j..]
  {
    var b, n := NUL, 2;
    if |rest| > 1 {
      b, n := rest[1], 3;
    }
    PutGroup(output, start, rest[0], b, NUL, n);
    j := start + 4;
  }

  lemma EncodeStep(x: seq<octet>, i: nat, done: string)
    requires i + 2 < |x| && done + Encode(x[i..]) == Encode(x)
    ensures done + Group(x[i], x[i + 1], x[i + 2], 4) + Encode(x[i + 3..]) == Encode(x)
  {
    assert x[i..][3..] == x[i + 3..];
    Associate(done, Group(x[i], x[i + 1], x[i + 2], 4), Encode(x[i + 3..]));
  }

  /** Storing `b` behind `done` in a buffer whose rest is still the original `o`. */
  lemma Splice<T>(before: seq<T>, after: seq<T>, done: seq<T>, b: seq<T>, o: seq<T>)
    requires |done| + |b| <= |o| && before == done + o[|done|..]
    requires after == before[..|done|] + b + before[|done| + |b|..]
    ensures after == done + b + o[|done| + |b|..]
  {
  }

  lemma Associate<T>(a: seq<T>, b: seq<T>, c: seq<T>)
    ensures a + (b + c) == a + b + c
  {
  }

  /** The four stores of one group; from character `n` on they store padding. */
  method PutGroup(output: array<char>, j: nat, a: octet, b: octet, c: octet, n: nat)
    requires 2 <= n <= 4 && j + 4 <= output.Length
    modifies output
    ensures output[..] == old(output[..])[..j] + Group(a, b, c, n) + old(output[..])[j + 4..]
  {
    output[j] := EncodeTable(SextetOf(a, b, c, 0));
    output[j + 1] := EncodeTable(SextetOf(a, b, c, 1));
    output[j + 2] := if n >= 3 then EncodeTable(SextetOf(a, b, c, 2)) else '=';
    output[j + 3] := if n >= 4 then EncodeTable(SextetOf(a, b, c, 3)) else '=';
  }

  /** The validation loop of base64_decode. */
  method Validate(t: string) returns (ok: bool)
    requires t != "" && |t| % 4 == 0
    ensures ok <==> Grammar(t)
  {
    GrammarIsValidated(t);
    var i := 0;
    while i < |t|
      invariant 0 <= i <= |t|
      invariant forall k | 0 <= k < i :: IsAlpha(t[k])
    {
      if !IsValidChar(t[i]) {
        return false;
      }
      if t[i] == '=' {
        var blockStart := i / 4 * 4;
        if blockStart + 4 != |t| || i - blockStart < 2 {
          return false;
        }
        var k := i + 1;
        while k < |t|
          invariant i < k <= |t|
          invariant forall m | i <= m < k :: t[m] == '='
        {
          if t[k] != '=' {
            return false;
          }
          k := k + 1;
        }
        return true;
      }
      i := i + 1;
    }
    return true;
  }

  /** The longest input that base64_decode looks at. */
  const MAX_INPUT: nat := INT_MAX / 3 * 4 + 4

  /** One of base64_decode's assertions ends the process: about the input, the buffer or the length of the result. */
  predicate DecodeAborts(input: string, size: nat) {
    || |input| > MAX_INPUT
    || (Strip(input) == "" && size == 0)
    || (Grammar(Strip(input)) && INT_MAX < |Decode(Strip(input))| <= size)
  }

  /**
   * The bound on the input does not make the length of the result representable in every case: one length
   * is let through that decodes to one or two bytes more than an int can count.
   */
  lemma LimitLetsThrough(t: string)
    requires Grammar(t) && |t| <= MAX_INPUT
    ensures |Decode(t)| > INT_MAX <==> |t| == MAX_INPUT && Pads(t) < 2
  {
    hide Grammar;
    if t != "" {
      LengthLimit(|t|, |Decode(t)|, Pads(t));
    }
  }

  lemma LengthLimit(n: nat, x: nat, pads: nat)
    requires 4 * x == 3 * n - 4 * pads && pads <= 2 && n <= MAX_INPUT
    ensures x > INT_MAX <==> n == MAX_INPUT && pads < 2
  {
    assert MAX_INPUT == 2863311532;
    var groups := n - (x + pads);
    assert n == 4 * groups && x + pads == 3 * groups;
  }

  /**
   * base64_decode: strips trailing whitespace, then accepts exactly the grammar; -1 when the
   * text is refused or its bytes do not fit. Nothing past the decoded bytes is written.
   */
  method DecodeBuffer(input: string, output: array<octet>) returns (rc: Option<int>)
    modifies output
    ensures rc == None <==> DecodeAborts(input, output.Length)
    ensures rc == Some(-1)
            <==> !DecodeAborts(input, output.Length)
                 && (!Grammar(Strip(input)) || output.Length < |Decode(Strip(input))|)
    ensures rc == Some(-1) ==> output[..] == old(output[..])
    ensures rc.Some? && rc.value != -1 ==>
              rc.value == |Decode(Strip(input))| <= INT_MAX
                && output[..] == Decode(Strip(input)) + old(output[..])[rc.value..]
  {
    if |input| > MAX_INPUT {
      return None;
    }
    var len := |input|;
    assert input[..len] == input;
    while len > 0 && IsTrailing(input[len - 1])
      invariant 0 <= len <= |input|
      invariant Strip(input[..len]) == Strip(input)
    {
      assert input[..len][..len - 1] == input[..len - 1];
      len := len - 1;
    }
    var t := input[..len];
    if len == 0 {
      return if output.Length >= 1 then Some(0) else None;
    }
    if len % 4 != 0 {
      GrammarIsValidated(t);
      return Some(-1);
    }
    var ok := Validate(t);
    if !ok {
      return Some(-1);
    }
    var n := DecodeBlocks(t, output);
    rc := if n > INT_MAX then None else Some(n);
  }

  method DecodedSize(t: string) returns (outLen: nat)
    requires Grammar(t) && t != ""
    ensures outLen == |Decode(t)|
  {
    GrammarIsValidated(t);
    var n := |t| / 4 * 3;
    if t[|t| - 1] == '=' { n := n - 1; }
    if t[|t| - 2] == '=' { n := n - 1; }
    return n;
  }

  /** The rest of base64_decode: the output length, the check against the buffer and the loop. */
  method DecodeBlocks(t: string, output: array<octet>) returns (rc: int)
    requires Grammar(t) && t != ""
    modifies output
    ensures rc == if output.Length < |Decode(t)| then -1 else |Decode(t)|
    ensures rc == -1 ==> output[..] == old(output[..])
    ensures rc != -1 ==> output[..] == Decode(t) + old(output[..])[rc..]
  {
    var outLen := DecodedSize(t);
    if output.Length < outLen {
      return -1;
    }
    DecodeGroups(t, output);
    return outLen;
  }

  /** The loop over four-character blocks. */
  method DecodeGroups(t: string, output: array<octet>)
    requires Grammar(t) && |Decode(t)| <= output.Length
    modifies output
    ensures output[..] == Decode(t) + old(output[..])[|Decode(t)|..]
  {
    hide *;
    var outLen, i, j := |Decode(t)|, 0, 0;
    ghost var original, done := output[..], [];
    while i < |t|
      invariant 0 <= i <= |t| && Grammar(t[i..])
      invariant j == |done| == outLen - |Decode(t[i..])| && done + Decode(t[i..]) == Decode(t)
      invariant output[..] == done + original[j..]
    {
      ghost var before := output[..];
      ghost var bytes;
      j, bytes := DecodeBlock(t, i, output, j, outLen);
      Splice(before, output[..], done, bytes, original);
      Associate(done, bytes, Decode(t[i + 4..]));
      done := done + bytes;
      i := i + 4;
    }
    assert done == Decode(t);
  }

  /** One turn of that loop. */
  method DecodeBlock(t: string, i: nat, output: array<octet>, start: nat, outLen: nat)
      returns (j: nat, ghost bytes: seq<octet>)
    requires i + 4 <= |t| && Grammar(t[i..])
    requires start + |Decode(t[i..])| == outLen <= output.Length
    modifies output
    ensures Grammar(t[i + 4..]) && Decode(t[i..]) == bytes + Decode(t[i + 4..])
    ensures j == start + |bytes| && output[..] == old(output[..])[..start] + bytes + old(output[..])[j..]
  {
    var triple := Sextet(t[i]) * 262144 + Sextet(t[i + 1]) * 4096 + Sextet(t[i + 2]) * 64 + Sextet(t[i + 3]);
    bytes := DecodeStep(t, i, Decode(t[i..]), triple);
    j := PutTriple(output, start, outLen, triple);
  }

  /** The three guarded stores of the decode loop. */
  method PutTriple(output: array<octet>, start: nat, outLen: nat, triple: int) returns (j: nat)
    requires start <= outLen <= output.Length && 0 <= triple < 0x100_0000
    modifies output
    ensures j == start + if outLen - start < 3 then outLen - start else 3
    ensures output[..] == old(output[..])[..start] + TripleBytes(triple)[..j - start] + old(output[..])[j..]
  {
    j := start;
    if j < outLen { output[j] := ByteOf(triple, 0); j := j + 1; }
    if j < outLen { output[j] := ByteOf(triple, 1); j := j + 1; }
    if j < outLen { output[j] := ByteOf(triple, 2); j := j + 1; }
  }

  lemma DecodeStep(t: string, i: nat, rest: seq<octet>, triple: int) returns (bytes: seq<octet>)
    requires i + 4 <= |t| && Grammar(t[i..]) && rest == Decode(t[i..])
    requires triple == Sextet(t[i]) * 262144 + Sextet(t[i + 1]) * 4096 + Sextet(t[i + 2]) * 64 + Sextet(t[i + 3])
    ensures 0 <= triple < 0x100_0000 && Grammar(t[i + 4..])
    ensures bytes == TripleBytes(triple)[..if |rest| < 3 then |rest| else 3]
    ensures rest == bytes + Decode(t[i + 4..]) && Decode(t[i + 4..]) == rest[|bytes|..]
  {
    assert t[i..][4..] == t[i + 4..];
    bytes := TripleBytes(Triple(t[i..]))[..if |rest| < 3 then |rest| else 3];
  }
}
