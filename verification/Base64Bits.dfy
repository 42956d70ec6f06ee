/** What the base64 tables hold, and which bits of the input each character of the output stands for. */
module Base64Bits {
  import opened Bytes
  import opened Base64

  /** Table 1 of RFC 4648. */
  const ALPHABET: string := "ABCDEFGHIJKLMNOPQRSTUVWXYZ" + "abcdefghijklmnopqrstuvwxyz" + "0123456789+/"

  /** The encoding table is the alphabet, and the decoding table gives the place in it. */
  lemma TablesAreAlphabet(n: nat, c: char)
    requires n < 64
    ensures |ALPHABET| == 64 && EncodeTable(n) == ALPHABET[n]
    ensures DecodeTable(c) == n <==> c == ALPHABET[n]
    ensures Base64.IsAlpha(c) <==> c in ALPHABET
    ensures c !in ALPHABET ==> DecodeTable(c) == if c == '=' then 64 else 255
  {
    LettersAt(n);
    hide ALPHABET;
    PlaceOf(n, c);
    LettersOnly(c);
  }

  lemma LettersAt(n: nat)
    requires n < 64
    ensures |ALPHABET| == 64 && EncodeTable(n) == ALPHABET[n]
  {
    if n < 26 {
    } else if n < 52 {
    } else {
    }
  }

  lemma PlaceOf(n: nat, c: char)
    requires n < 64
    ensures DecodeTable(c) == n <==> c == EncodeTable(n)
  {
  }

  lemma LettersOnly(c: char)
    ensures Base64.IsAlpha(c) <==> c in ALPHABET
  {
    if Base64.IsAlpha(c) {
      TablesInverseChar(c);
      LettersAt(DecodeTable(c));
    }
    if i :| 0 <= i < |ALPHABET| && ALPHABET[i] == c {
      AlphaAt(i);
    }
  }

  lemma AlphaAt(n: nat)
    requires n < |ALPHABET|
    ensures Base64.IsAlpha(ALPHABET[n])
  {
    assert |ALPHABET| == 64;
    LettersAt(n);
  }

  // ---------- bits ----------

  function PowerOfTwo(n: nat): (p: nat)
    ensures p > 0
  {
    if n == 0 then 1 else 2 * PowerOfTwo(n - 1)
  }

  /** Bit `i` of a byte string, the most significant bit of each byte first; 0 behind its end. */
  function BitAt(x: seq<octet>, i: nat): nat {
    if i / 8 < |x| then x[i / 8] as int / PowerOfTwo(7 - i % 8) % 2 else 0
  }

  /** The number that the six bits from `i` on make. */
  function SixBits(x: seq<octet>, i: nat): nat {
    32 * BitAt(x, i) + 16 * BitAt(x, i + 1) + 8 * BitAt(x, i + 2) + 4 * BitAt(x, i + 3) + 2 * BitAt(x, i + 4)
    + BitAt(x, i + 5)
  }

  lemma Powers()
    ensures PowerOfTwo(0) == 1 && PowerOfTwo(1) == 2 && PowerOfTwo(2) == 4 && PowerOfTwo(3) == 8
    ensures PowerOfTwo(4) == 16 && PowerOfTwo(5) == 32 && PowerOfTwo(6) == 64 && PowerOfTwo(7) == 128
  {
  }

  function Bit(a: int, p: int): int
    requires p > 0
  {
    a / p % 2
  }

  lemma Halves(a: int, p: int)
    requires 0 <= a && (p == 1 || p == 2 || p == 4 || p == 8 || p == 16 || p == 32 || p == 64)
    ensures a / p == 2 * (a / (2 * p)) + Bit(a, p)
  {
    if p <= 4 {
      HalvesLow(a, p);
    } else if p <= 16 {
      HalvesMiddle(a, p);
    } else {
      HalvesHigh(a, p);
    }
  }

  lemma HalvesLow(a: int, p: int)
    requires 0 <= a && (p == 1 || p == 2 || p == 4)
    ensures a / p == 2 * (a / (2 * p)) + Bit(a, p)
  {
    assert a / 2 == 2 * (a / 4) + a / 2 % 2;
    assert a / 4 == 2 * (a / 8) + a / 4 % 2;
  }

  lemma HalvesMiddle(a: int, p: int)
    requires 0 <= a && (p == 8 || p == 16)
    ensures a / p == 2 * (a / (2 * p)) + Bit(a, p)
  {
    assert a / 8 == 2 * (a / 16) + a / 8 % 2;
    assert a / 16 == 2 * (a / 32) + a / 16 % 2;
  }

  lemma HalvesHigh(a: int, p: int)
    requires 0 <= a && (p == 32 || p == 64)
    ensures a / p == 2 * (a / (2 * p)) + Bit(a, p)
  {
    assert a / 32 == 2 * (a / 64) + a / 32 % 2;
    assert a / 64 == 2 * (a / 128) + a / 64 % 2;
  }

  /** The parts of a byte that go into one sextet, as their bits. */
  lemma PartsOfByte(a: int)
    requires 0 <= a < 256
    ensures a / 4 == 32 * Bit(a, 128) + 16 * Bit(a, 64) + 8 * Bit(a, 32) + 4 * Bit(a, 16) + 2 * Bit(a, 8) + Bit(a, 4)
    ensures a % 4 == 2 * Bit(a, 2) + Bit(a, 1)
    ensures a / 16 == 8 * Bit(a, 128) + 4 * Bit(a, 64) + 2 * Bit(a, 32) + Bit(a, 16)
    ensures a % 16 == 8 * Bit(a, 8) + 4 * Bit(a, 4) + 2 * Bit(a, 2) + Bit(a, 1)
    ensures a / 64 == 2 * Bit(a, 128) + Bit(a, 64)
    ensures a % 64 == 32 * Bit(a, 32) + 16 * Bit(a, 16) + 8 * Bit(a, 8) + 4 * Bit(a, 4) + 2 * Bit(a, 2) + Bit(a, 1)
  {
    assert a / 128 == Bit(a, 128);
    hide Bit;
    Halves(a, 64);
    Halves(a, 32);
    Halves(a, 16);
    Halves(a, 8);
    Halves(a, 4);
    Halves(a, 2);
    Halves(a, 1);
  }

  /** Byte `i`, or zero behind the end. */
  function ByteAt(x: seq<octet>, i: nat): octet {
    if i < |x| then x[i] else NUL
  }

  lemma BitOfByte(x: seq<octet>, i: nat, j: nat)
    requires j < 8
    ensures BitAt(x, 8 * i + j) == Bit(ByteAt(x, i) as int, PowerOfTwo(7 - j))
  {
    hide PowerOfTwo;
    assert (8 * i + j) / 8 == i && (8 * i + j) % 8 == j;
  }

  /** The eight bits of a byte make up these parts of it. */
  lemma BitsOfByte(x: seq<octet>, i: nat)
    ensures var a, at := ByteAt(x, i) as int, 8 * i;
            && a / 4 == SixBits(x, at) && a % 4 == 2 * BitAt(x, at + 6) + BitAt(x, at + 7)
            && a / 16 == 8 * BitAt(x, at) + 4 * BitAt(x, at + 1) + 2 * BitAt(x, at + 2) + BitAt(x, at + 3)
            && a % 16 == 8 * BitAt(x, at + 4) + 4 * BitAt(x, at + 5) + 2 * BitAt(x, at + 6) + BitAt(x, at + 7)
            && a / 64 == 2 * BitAt(x, at) + BitAt(x, at + 1) && a % 64 == SixBits(x, at + 2)
  {
    hide BitAt, ByteAt, Bit, PowerOfTwo;
    Powers();
    BitOfByte(x, i, 0);
    BitOfByte(x, i, 1);
    BitOfByte(x, i, 2);
    BitOfByte(x, i, 3);
    BitOfByte(x, i, 4);
    BitOfByte(x, i, 5);
    BitOfByte(x, i, 6);
    BitOfByte(x, i, 7);
    PartsOfByte(ByteAt(x, i) as int);
  }

  /** The four sextets of the first group. */
  lemma SextetBits(x: seq<octet>, k: nat)
    requires k < 4
    ensures SextetOf(ByteAt(x, 0), ByteAt(x, 1), ByteAt(x, 2), k) == SixBits(x, 6 * k)
  {
    hide BitAt, ByteAt;
    BitsOfByte(x, 0);
    BitsOfByte(x, 1);
    BitsOfByte(x, 2);
  }

  lemma BitsBehind(x: seq<octet>, i: nat)
    requires |x| >= 3
    ensures BitAt(x, i + 24) == BitAt(x[3..], i)
  {
  }

  lemma SixBehind(x: seq<octet>, i: nat)
    requires |x| >= 3
    ensures SixBits(x, i + 24) == SixBits(x[3..], i)
  {
    hide BitAt;
    BitsBehind(x, i);
    BitsBehind(x, i + 1);
    BitsBehind(x, i + 2);
    BitsBehind(x, i + 3);
    BitsBehind(x, i + 4);
    BitsBehind(x, i + 5);
  }

  /** Character `k` of the output stands for the six bits from 6k on, or pads where the input has no bit left. */
  lemma {:induction false} CharacterOf(x: seq<octet>, k: nat)
    requires k < |Encode(x)|
    ensures if 6 * k < 8 * |x| then SixBits(x, 6 * k) < 64 && Encode(x)[k] == ALPHABET[SixBits(x, 6 * k)]
            else Encode(x)[k] == '='
    decreases k
  {
    hide SixBits, SextetOf, EncodeTable, ALPHABET, Group, EncodedLength;
    GroupFirst(x, k);
    if k < 4 {
      SextetBits(x, k);
      LettersAt(SixBits(x, 6 * k));
      FirstGroup(x, k);
    } else {
      SixBehind(x, 6 * (k - 4));
      CharacterOf(x[3..], k - 4);
    }
  }

  /** Behind the first group the encoding goes on with the rest of the input. */
  lemma GroupFirst(x: seq<octet>, k: nat)
    requires k < |Encode(x)|
    ensures x != [] && (k >= 4 ==> |x| > 3 && k - 4 < |Encode(x[3..])| && Encode(x)[k] == Encode(x[3..])[k - 4])
  {
    hide EncodeTable, SextetOf;
    if |x| >= 3 {
      assert Encode(x) == Group(x[0], x[1], x[2], 4) + Encode(x[3..]);
    }
  }

  lemma FirstGroup(x: seq<octet>, k: nat)
    requires x != [] && k < 4 && k < |Encode(x)|
    ensures Encode(x)[k] == if 6 * k < 8 * |x| then EncodeTable(SextetOf(ByteAt(x, 0), ByteAt(x, 1), ByteAt(x, 2), k))
                            else '='
  {
    hide EncodeTable, SextetOf;
    var n := if |x| >= 3 then 4 else |x| + 1;
    GroupIsFirst(x, k, n);
    hide Encode;
    assert 6 * k < 8 * |x| <==> k < n;
  }

  lemma GroupIsFirst(x: seq<octet>, k: nat, n: nat)
    requires x != [] && k < 4 && k < |Encode(x)| && n == if |x| >= 3 then 4 else |x| + 1
    ensures Encode(x)[k] == Group(ByteAt(x, 0), ByteAt(x, 1), ByteAt(x, 2), n)[k]
  {
    hide Group, EncodedLength;
  }

  /** The examples of section 10 of RFC 4648. */
  lemma Vectors()
    ensures Encode("f") == "Zg==" && Encode("fo") == "Zm8=" && Encode("foo") == "Zm9v"
    ensures Encode("foob") == "Zm9vYg==" && Encode("fooba") == "Zm9vYmE=" && Encode("foobar") == "Zm9vYmFy"
  {
  }
}
