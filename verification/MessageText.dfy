/** Which decoded lines carry a message, and which message. */
module MessageText {
  import opened Bytes
  import opened TextFile
  import opened Wire
  import Decimal
  import Numerals

  /** The text up to its first ": ", and what follows it. */
  ghost predicate Splits(decoded: string, front: string, content: string) {
    decoded == front + ": " + content && NUL !in front && NoSeparator(front + ":")
  }

  /** The handle in front of the first "|", or all of it. */
  predicate HandleOf(front: string, handle: string) {
    0 < |handle| < 64 && '|' !in handle && (front == handle || handle + "|" <= front)
  }

  /** A stamp is a positive number of up to 19 characters. */
  ghost predicate StampIs(stamp: string, t: int) {
    t > 0 && |stamp| < 20 && t <= 0x7FFF_FFFF_FFFF_FFFF && Numerals.Numeral(stamp, t)
  }

  /** The stamp stands between the handle and the end or a second "|"; without one it is 0. */
  ghost predicate StampOf(front: string, handle: string, t: int) {
    if front == handle then t == 0
    else
      exists stamp, rest ::
        && front == handle + ("|" + (stamp + rest)) && '|' !in stamp && (rest == "" || rest[0] == '|')
        && (StampIs(stamp, t) || (t == 0 && forall v :: !StampIs(stamp, v)))
  }

  ghost predicate Carries(decoded: string, m: Message) {
    exists front :: Splits(decoded, front, m.content) && HandleOf(front, m.handle)
                    && StampOf(front, m.handle, m.timestamp) && NUL !in m.content
  }

  /** A message in all but a NUL in its text. */
  ghost predicate CarriesNul(decoded: string) {
    exists front, handle, content :: Splits(decoded, front, content) && HandleOf(front, handle) && NUL in content
  }

  // ---------- the three parts ----------

  lemma SplitFound(decoded: string, front: string, content: string)
    requires Splits(decoded, front, content)
    ensures var text := CString(decoded);
            ColonSpace(text) == |front| && |front| < |text| && decoded[..|front|] == front
            && decoded[|front| + 2..] == content
  {
    var n := Index(decoded, NUL);
    var both := front + ": ";
    assert forall k | 0 <= k < |front| :: decoded[k] == front[k] && front[k] in front;
    assert decoded[|front|] == ':' && decoded[|front| + 1] == ' ';
    assert n >= |front| + 2;
    var text := CString(decoded);
    forall k | 0 <= k < |front| ensures !(text[k] == ':' && text[k + 1] == ' ') {
      assert text[k] == (front + ":")[k] && text[k + 1] == (front + ":")[k + 1];
    }
    ColonSpaceAt(text, |front|);
  }

  lemma FoundSplits(decoded: string)
    requires var text := CString(decoded); ColonSpace(text) < |text|
    ensures var colon := ColonSpace(CString(decoded));
            colon + 2 <= |decoded| && Splits(decoded, decoded[..colon], decoded[colon + 2..])
  {
    var text := CString(decoded);
    var colon := ColonSpace(text);
    var front, content := decoded[..colon], decoded[colon + 2..];
    assert decoded == front + ": " + content;
    assert forall k | 0 <= k < colon :: front[k] == text[k];
    assert forall c | c in front :: c in text;
    assert forall k | 0 <= k < |front + ":"| :: (front + ":")[k] == text[k];
  }

  lemma HandleFound(front: string, handle: string)
    requires HandleOf(front, handle)
    ensures Index(front, '|') == |handle| && front[..|handle|] == handle
    ensures front != handle ==> |handle| < |front|
  {
    assert forall k | 0 <= k < |handle| :: front[k] == handle[k] && handle[k] in handle;
    if front != handle {
      assert (handle + "|")[|handle|] == '|';
    }
    IndexAt(front, '|', |handle|);
  }

  lemma FoundHandle(front: string)
    requires 0 < Index(front, '|') < 64
    ensures HandleOf(front, front[..Index(front, '|')])
  {
    var pipe := Index(front, '|');
    if pipe < |front| {
      assert front[..pipe] + "|" == front[..pipe + 1];
    } else {
      assert front[..pipe] == front;
    }
  }

  /** What Epoch makes of a stamp. */
  lemma EpochIs(stamp: string, t: int)
    ensures Epoch(stamp) == t <==> StampIs(stamp, t) || (t == 0 && forall v :: !StampIs(stamp, v))
  {
    var e := Epoch(stamp);
    EpochPositive(stamp, e);
    EpochPositive(stamp, t);
    forall v | StampIs(stamp, v) ensures e == v {
      EpochPositive(stamp, v);
    }
  }

  lemma EpochPositive(stamp: string, t: int)
    ensures t > 0 ==> (Epoch(stamp) == t <==> StampIs(stamp, t))
  {
    Numerals.ParseIff(stamp, INT64_MIN, INT64_MAX, t);
    hide Decimal.Parse;
    if stamp == "" && StampIs(stamp, t) {
      NoEmptyNumeral(t);
    }
  }

  lemma NoEmptyNumeral(t: int)
    ensures !Numerals.Numeral("", t)
  {
  }

  /** What the reader takes for the time of a front with this handle. */
  function TimeIn(front: string, handle: string): int
    requires |handle| <= |front|
  {
    if |handle| < |front| then Epoch(CutAtPipe(front[|handle| + 1..])) else 0
  }

  lemma StampFound(front: string, handle: string, t: int)
    requires HandleOf(front, handle)
    ensures |handle| <= |front| && (StampOf(front, handle, t) <==> t == TimeIn(front, handle))
  {
    hide StampIs;
    if front != handle {
      assert (handle + "|")[|handle|] == '|';
      var tail := front[|handle| + 1..];
      var stamp := CutAtPipe(tail);
      var rest := tail[|stamp|..];
      assert front == handle + ("|" + (stamp + rest));
      EpochIs(stamp, t);
      if StampOf(front, handle, t) {
        var stamp', rest' :|
          && front == handle + ("|" + (stamp' + rest')) && '|' !in stamp' && (rest' == "" || rest'[0] == '|')
          && (StampIs(stamp', t) || (t == 0 && forall v :: !StampIs(stamp', v)));
        assert tail == stamp' + rest';
        assert forall k | 0 <= k < |stamp'| :: tail[k] == stamp'[k] && stamp'[k] in stamp';
        IndexAt(tail, '|', |stamp'|);
      }
    }
  }

  // ---------- the message ----------

  /** The reader's handle, time and text are the only ones that fit. */
  lemma FrontRead(decoded: string, front: string, content: string, m: Message)
    requires Splits(decoded, front, content)
    ensures var pipe := Index(front, '|');
            && (Carries(decoded, m) <==>
                0 < pipe < 64 && NUL !in content && m == Message(front[..pipe], content, TimeIn(front, front[..pipe])))
            && (CarriesNul(decoded) <==> 0 < pipe < 64 && NUL in content)
  {
    hide StampOf, Epoch, Splits, HandleOf, TimeIn;
    var pipe := Index(front, '|');
    if 0 < pipe < 64 {
      FoundHandle(front);
      StampFound(front, front[..pipe], TimeIn(front, front[..pipe]));
    }
    if Carries(decoded, m) {
      var f :| Splits(decoded, f, m.content) && HandleOf(f, m.handle) && StampOf(f, m.handle, m.timestamp);
      OneSplit(decoded, front, content, f, m.content);
      HandleFound(front, m.handle);
      HandleLength(front, m.handle);
      StampFound(front, m.handle, m.timestamp);
    }
    if CarriesNul(decoded) {
      var f, h, t :| Splits(decoded, f, t) && HandleOf(f, h) && NUL in t;
      OneSplit(decoded, front, content, f, t);
      HandleFound(front, h);
      HandleLength(front, h);
    }
  }

  lemma HandleLength(front: string, handle: string)
    requires HandleOf(front, handle)
    ensures 0 < |handle| < 64
  {
  }

  lemma OneSplit(decoded: string, front: string, content: string, f: string, t: string)
    requires Splits(decoded, front, content) && Splits(decoded, f, t)
    ensures f == front && t == content
  {
    hide Splits, ColonSpace;
    SplitFound(decoded, front, content);
    SplitFound(decoded, f, t);
  }

  /**
   * A decoded line reads as a message exactly if it carries that message, and ends the process exactly if it would
   * but for a NUL in the text.
   */
  lemma ParsedIff(decoded: string, m: Message)
    ensures ParseWire(decoded) == Parsed(m) <==> Carries(decoded, m)
    ensures ParseWire(decoded) == Abort <==> CarriesNul(decoded)
  {
    hide StampOf, HandleOf, Splits, Epoch, ColonSpace;
    var text := CString(decoded);
    var colon := ColonSpace(text);
    if colon < |text| {
      FoundSplits(decoded);
      FrontRead(decoded, decoded[..colon], decoded[colon + 2..], m);
    } else {
      if Carries(decoded, m) {
        var front :| Splits(decoded, front, m.content);
        SplitFound(decoded, front, m.content);
      }
      if CarriesNul(decoded) {
        var front, handle, content :| Splits(decoded, front, content) && HandleOf(front, handle);
        SplitFound(decoded, front, content);
      }
    }
  }
}
