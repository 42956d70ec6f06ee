/** One chat message on the wire: "handle|EPOCH: content", base64-encoded on a line of its own. */
module Wire {
  import opened Bytes
  import opened Limits
  import opened TextFile
  import Base64
  import Decimal
  import opened Participants

  datatype Message = Message(handle: string, content: string, timestamp: int)

  /** What becomes of one decoded line. */
  datatype Outcome = Nothing | Abort | Parsed(message: Message)

  /** strstr(s, ": "), or the length. */
  function ColonSpace(s: string): (i: nat)
    ensures i <= |s| && (forall k | 0 <= k < i && k < |s| - 1 :: !(s[k] == ':' && s[k + 1] == ' '))
    ensures i < |s| ==> i < |s| - 1 && s[i] == ':' && s[i + 1] == ' '
  {
    if s == "" then 0
    else if |s| >= 2 && s[0] == ':' && s[1] == ' ' then 0
    else 1 + ColonSpace(s[1..])
  }

  /** The time stamp field: up to 19 characters that are a positive number, else none. */
  function Epoch(s: string): (t: int)
    ensures t >= 0
  {
    if 0 < |s| < 20 then
      match Decimal.Parse(s, INT64_MIN, INT64_MAX)
      case Some(v) => if v > 0 then v else 0
      case None => 0
    else 0
  }

  /** "handle|EPOCH: content", "handle|EPOCH|SIG: content" or "handle: content". */
  function ParseWire(decoded: string): Outcome {
    var colon := ColonSpace(CString(decoded));
    if colon >= |CString(decoded)| then Nothing
    else
      var prefix := decoded[..colon];
      var pipe := Index(prefix, '|');
      var timestamp := if pipe < |prefix| then Epoch(CutAtPipe(prefix[pipe + 1..])) else 0;
      var content := decoded[colon + 2..];
      if !(0 < pipe < MAX_HANDLE_LEN) then Nothing
      else if NUL in content then Abort
      else Parsed(Message(prefix[..pipe], content, timestamp))
  }

  function CutAtPipe(s: string): string { s[..Index(s, '|')] }

  function WireText(m: Message): string {
    m.handle + "|" + Decimal.Print(m.timestamp) + ": " + m.content
  }

  /** What a reader sees of a message: stamps that are not positive read as "none". */
  function Seen(m: Message): Message {
    m.(timestamp := if m.timestamp > 0 then m.timestamp else 0)
  }

  /** Message text that the format can carry. */
  predicate LegalContent(s: string) {
    forall i | 0 <= i < |s| :: s[i] as int < 256 && s[i] != NUL
  }

  predicate LegalMessage(m: Message) {
    LegalHandle(m.handle) && LegalContent(m.content) && INT64_MIN <= m.timestamp <= INT64_MAX
  }

  // ---------- round trip ----------

  lemma {:induction false} ColonSpaceAt(s: string, i: nat)
    requires i < |s| - 1 && s[i] == ':' && s[i + 1] == ' '
    requires forall k | 0 <= k < i :: !(s[k] == ':' && s[k + 1] == ' ')
    ensures ColonSpace(s) == i
  {
    if i > 0 {
      ColonSpaceAt(s[1..], i - 1);
    }
  }

  predicate NumeralChars(s: string) {
    forall i | 0 <= i < |s| :: s[i] == '-' || IsDigit(s[i])
  }

  lemma EpochRoundTrip(n: int)
    requires INT64_MIN <= n <= INT64_MAX
    ensures Epoch(Decimal.Print(n)) == if n > 0 then n else 0
    ensures NumeralChars(Decimal.Print(n))
  {
    Decimal.ParsePrint(n, INT64_MIN, INT64_MAX, "");
    assert Decimal.Print(n) + "" == Decimal.Print(n);
    if n > 0 {
      Decimal.NineteenDigits(n);
    }
  }

  predicate NoSeparator(s: string) {
    forall k | 0 <= k < |s| - 1 :: !(s[k] == ':' && s[k + 1] == ' ')
  }

  /** The first ": " ends the prefix, whatever the content is. */
  lemma SeparatorFound(prefix: string, content: string, text: string)
    requires NoSeparator(prefix) && text == prefix + (": " + content)
    ensures ColonSpace(text) == |prefix| && text[..|prefix|] == prefix && text[|prefix| + 2..] == content
  {
    var i := |prefix|;
    assert text[i] == ':' && text[i + 1] == ' ';
    forall k | 0 <= k < i ensures !(text[k] == ':' && text[k + 1] == ' ') {
      assert text[k] == prefix[k];
      assert k + 1 < i ==> text[k + 1] == prefix[k + 1];
    }
    ColonSpaceAt(text, i);
  }

  lemma PrefixClear(h: string, rest: string, prefix: string)
    requires LegalHandle(h) && NoSeparator(rest) && prefix == h + ("|" + rest)
    ensures NoSeparator(prefix)
  {
    forall k | 0 <= k < |prefix| - 1 ensures !(prefix[k] == ':' && prefix[k + 1] == ' ') {
      if k < |h| {
        assert prefix[k] == h[k];
        assert prefix[k + 1] == if k + 1 < |h| then h[k + 1] else '|';
      } else if k > |h| {
        assert prefix[k] == rest[k - |h| - 1] && prefix[k + 1] == rest[k - |h|];
      }
    }
  }

  /** The first "|" in front of it ends the handle and the second field is the stamp. */
  lemma PipeFound(h: string, rest: string, prefix: string)
    requires LegalHandle(h) && prefix == h + ("|" + rest)
    ensures Index(prefix, '|') == |h| && prefix[..|h|] == h && prefix[|h| + 1..] == rest
  {
    forall k | 0 <= k < |h| ensures prefix[k] != '|' {
      assert prefix[k] == h[k] && HandleChar(h[k]);
    }
    IndexAt(prefix, '|', |h|);
  }

  lemma WireBytes(m: Message)
    requires IsBytes(m.handle) && IsBytes(m.content)
    ensures IsBytes(WireText(m))
  {
    var numeral: seq<octet> := Decimal.Print(m.timestamp);
    assert forall i | 0 <= i < |numeral| :: numeral[i] as int < 256;
  }

  lemma NoNul(m: Message)
    requires LegalMessage(m)
    ensures NUL !in WireText(m) && IsBytes(m.handle) && IsBytes(m.content)
  {
    hide Decimal.Print;
    EpochRoundTrip(m.timestamp);
    assert forall k | 0 <= k < |m.handle| :: HandleChar(m.handle[k]);
    assert NUL !in m.handle && NUL !in Decimal.Print(m.timestamp) && NUL !in m.content;
  }

  predicate IsBytes(s: string) {
    forall i | 0 <= i < |s| :: s[i] as int < 256
  }

  /** What ParseWire makes of a text whose separator and first bar are known. */
  lemma ParsedParts(text: string, prefix: string, h: string, rest: string, content: string)
    requires ColonSpace(text) == |prefix| < |text| - 1 && text[..|prefix|] == prefix && text[|prefix| + 2..] == content
    requires Index(prefix, '|') == |h| < |prefix| && prefix[..|h|] == h && prefix[|h| + 1..] == rest
    requires NUL !in text && 0 < |h| < MAX_HANDLE_LEN
    ensures ParseWire(text) == Parsed(Message(h, content, Epoch(CutAtPipe(rest))))
  {
    hide ColonSpace, Index, Epoch, CutAtPipe;
    CStringWhole(text);
  }

  lemma NulInParts(m: Message, signature: string)
    requires LegalMessage(m) && NUL !in signature
    ensures NUL !in SignedText(m, signature)
  {
    hide Decimal.Print, LegalHandle, LegalContent;
    NoNul(m);
  }

  /** Parsing a legal message's wire text gives the message back. */
  lemma WireRoundTrip(m: Message)
    requires LegalMessage(m)
    ensures ParseWire(WireText(m)) == Parsed(Seen(m))
  {
    hide ColonSpace, LegalHandle, Index, Epoch, NumeralChars, NoSeparator;
    var numeral, text := Decimal.Print(m.timestamp), WireText(m);
    var prefix := m.handle + ("|" + numeral);
    EpochRoundTrip(m.timestamp);
    NumeralClear(numeral);
    NoNul(m);
    CStringWhole(text);
    assert text == prefix + (": " + m.content);
    PrefixClear(m.handle, numeral, prefix);
    SeparatorFound(prefix, m.content, text);
    PipeFound(m.handle, numeral, prefix);
    LegalLength(m.handle);
  }

  lemma NumeralClear(s: string)
    requires NumeralChars(s)
    ensures ':' !in s && NoSeparator(s) && CutAtPipe(s) == s
  {
    IndexAt(s, '|', |s|);
  }

  function SignedText(m: Message, signature: string): string {
    m.handle + ("|" + (Decimal.Print(m.timestamp) + ("|" + signature))) + (": " + m.content)
  }

  /**
   * The old signed form: the signature is ignored and the stamp is read, unless the signature has a separator
   * in it.
   */
  lemma SignedRoundTrip(m: Message, signature: string)
    requires LegalMessage(m) && NUL !in signature
    ensures ParseWire(SignedText(m, signature)) == Parsed(Seen(m)) <==> NoSeparator(signature)
  {
    hide SignedText, ParseWire, NoSeparator;
    if NoSeparator(signature) {
      SignedParses(m, signature);
    } else {
      SignedMisreads(m, signature);
    }
  }

  lemma SignedParses(m: Message, signature: string)
    requires LegalMessage(m) && NUL !in signature && NoSeparator(signature)
    ensures ParseWire(SignedText(m, signature)) == Parsed(Seen(m))
  {
    hide ColonSpace, LegalHandle, LegalContent, Index, Epoch, NumeralChars, NoSeparator, Decimal.Print, ParseWire,
         CutAtPipe;
    var numeral := Decimal.Print(m.timestamp);
    var rest := numeral + ("|" + signature);
    var prefix := m.handle + ("|" + rest);
    EpochRoundTrip(m.timestamp);
    NumeralClear(numeral);
    NulInParts(m, signature);
    SignedClear(numeral, signature, rest);
    PrefixClear(m.handle, rest, prefix);
    SeparatorFound(prefix, m.content, SignedText(m, signature));
    PipeFound(m.handle, rest, prefix);
    LegalLength(m.handle);
    PipeEnds(numeral, rest, signature);
    ParsedParts(SignedText(m, signature), prefix, m.handle, rest, m.content);
  }

  lemma SignedMisreads(m: Message, signature: string)
    requires LegalMessage(m) && NUL !in signature && !NoSeparator(signature)
    ensures ParseWire(SignedText(m, signature)) != Parsed(Seen(m))
  {
    hide ParseWire, NoSeparator, Decimal.Print, LegalHandle;
    NoNul(m);
    var numeral := Decimal.Print(m.timestamp);
    assert m.handle + ("|" + (numeral + ("|" + signature))) == m.handle + ("|" + (numeral + "|")) + signature;
    SeparatorEarly(m.handle + ("|" + (numeral + "|")), signature, m.content, SignedText(m, signature));
  }

  lemma SignedClear(numeral: string, signature: string, rest: string)
    requires ':' !in numeral && NoSeparator(signature) && rest == numeral + ("|" + signature)
    ensures NoSeparator(rest)
  {
    forall k | 0 <= k < |rest| - 1 ensures !(rest[k] == ':' && rest[k + 1] == ' ') {
      if k < |numeral| {
        assert rest[k] == numeral[k];
      } else if k > |numeral| {
        assert rest[k] == signature[k - |numeral| - 1] && rest[k + 1] == signature[k - |numeral|];
      }
    }
  }

  /** A separator in front of the right one makes the content longer than it was. */
  lemma SeparatorEarly(before: string, signature: string, content: string, text: string)
    requires !NoSeparator(signature) && text == before + signature + (": " + content) && NUL !in text
    ensures ParseWire(text).Parsed? ==> |ParseWire(text).message.content| > |content|
  {
    hide Index, Epoch;
    var k :| 0 <= k < |signature| - 1 && signature[k] == ':' && signature[k + 1] == ' ';
    assert text[|before| + k] == ':' && text[|before| + k + 1] == ' ';
    CStringWhole(text);
  }

  lemma PipeEnds(numeral: string, rest: string, signature: string)
    requires NumeralChars(numeral) && rest == numeral + ("|" + signature)
    ensures CutAtPipe(rest) == numeral
  {
    IndexAt(rest, '|', |numeral|);
  }

  /** The oldest form has no stamp. */
  lemma UnstampedRoundTrip(h: string, content: string)
    requires LegalHandle(h) && NUL !in content
    ensures ParseWire(h + (": " + content)) == Parsed(Message(h, content, 0))
  {
    hide ColonSpace, Index, Epoch;
    var text := h + (": " + content);
    assert NUL !in h && '|' !in h by {
      assert forall k | 0 <= k < |h| :: HandleChar(h[k]);
    }
    CStringWhole(text);
    SeparatorFound(h, content, text);
    IndexAt(h, '|', |h|);
  }

  lemma LegalLength(h: string)
    requires LegalHandle(h)
    ensures 0 < |h| < MAX_HANDLE_LEN
  {
  }

  // ---------- the line in the file ----------

  /** The base64 line of a message. */
  function EncodedLine(m: Message): (line: string)
    requires IsBytes(m.handle) && IsBytes(m.content)
    ensures |line| == Base64.EncodedLength(|WireText(m)|)
  {
    WireBytes(m);
    Base64.Encode(WireText(m))
  }

  /** What chat_read makes of a line behind the header that is not blank and has a length divisible by four. */
  function DecodeLine(line: string): Option<Outcome> {
    var t := Base64.Strip(line);
    if Base64.Grammar(t) then Some(ParseWire(Base64.Decode(t))) else None
  }

  /** A line of base64 text: what no header line, separator or padding can look like. */
  predicate Base64Text(line: string) {
    && line != "" && |line| % 4 == 0
    && forall i | 0 <= i < |line| :: Base64.IsValidChar(line[i])
  }

  lemma EncodedIsBase64(x: seq<octet>)
    requires x != []
    ensures Base64Text(Base64.Encode(x)) && DecodeLine(Base64.Encode(x)) == Some(ParseWire(x))
  {
    hide Base64.Encode, Base64.Decode, Base64.Grammar, ParseWire;
    var line := Base64.Encode(x);
    Base64.DecodeEncode(x);
    Base64.GrammarIsValidated(line);
    ValidatedIsBase64(line);
    assert Base64.Strip(line) == line;
  }

  lemma EncodedLineIsBase64(m: Message)
    requires LegalMessage(m)
    ensures IsBytes(m.handle) && IsBytes(m.content)
    ensures Base64Text(EncodedLine(m)) && DecodeLine(EncodedLine(m)) == Some(Parsed(Seen(m)))
  {
    hide Base64.Encode, DecodeLine, ParseWire, LegalMessage, WireText;
    NoNul(m);
    WireBytes(m);
    WireRoundTrip(m);
    WireNonempty(m);
    EncodedIsBase64(WireText(m));
  }

  lemma WireNonempty(m: Message)
    ensures WireText(m) != ""
  {
  }

  lemma ValidatedIsBase64(t: string)
    requires Base64.Validated(t) && t != ""
    ensures Base64Text(t)
  {
    forall i | 0 <= i < |t| ensures Base64.IsValidChar(t[i]) {
      assert i < |t| - 2 ==> Base64.IsAlpha(t[i]);
    }
  }
}
