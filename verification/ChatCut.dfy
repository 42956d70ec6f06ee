/**
 * When chat_truncate's participants header is cut: never for a chat that was only sent to, and an example where
 * it is.
 */
module ChatCut {
  import opened Bytes
  import opened Limits
  import opened Participants
  import opened Wire
  import opened ChatFile
  import ChatStore
  import Decimal

  // ---------- chats that only sends made ----------

  /** Distinct members of one list that are all in another one are no more than the distinct members of that one. */
  lemma FewerDistinct(a: seq<string>, b: seq<string>)
    requires forall h | h in a :: h in b
    ensures |Distinct(a)| <= |Distinct(b)|
  {
    hide Distinct;
    DistinctSize(Distinct(a));
    DistinctSize(Distinct(b));
    SubsetSize(Members(Distinct(a)), Members(Distinct(b)));
  }

  function Members(d: seq<string>): set<string> { set h | h in d }

  lemma {:induction false} DistinctSize(d: seq<string>)
    requires forall i, j | 0 <= i < j < |d| :: d[i] != d[j]
    ensures |Members(d)| == |d|
  {
    if d != [] {
      DistinctSize(d[1..]);
      assert Members(d) == {d[0]} + Members(d[1..]) && d[0] !in d[1..];
    }
  }

  lemma {:induction false} SubsetSize(a: set<string>, b: set<string>)
    requires a <= b
    ensures |a| <= |b|
    decreases |a|
  {
    if h :| h in a {
      SubsetSize(a - {h}, b - {h});
    }
  }

  lemma FewerEntries(a: seq<string>, b: seq<string>)
    requires (forall h | h in a :: h in b) && forall i | 0 <= i < |b| :: |b[i]| < MAX_HANDLE_LEN
    ensures |Tally(a, MAX_PARTICIPANTS)| <= |Tally(b, MAX_PARTICIPANTS)|
  {
    hide Distinct, Tally;
    forall i | 0 <= i < |a| ensures |a[i]| < MAX_HANDLE_LEN {
      assert a[i] in b;
    }
    FewerDistinct(a, b);
    TallyIsHistogram(a, MAX_PARTICIPANTS);
    TallyIsHistogram(b, MAX_PARTICIPANTS);
    assert |Handles(Tally(a, MAX_PARTICIPANTS))| == |Tally(a, MAX_PARTICIPANTS)|;
    assert |Handles(Tally(b, MAX_PARTICIPANTS))| == |Tally(b, MAX_PARTICIPANTS)|;
  }

  /**
   * Whatever sends, failures and deaths made the chat: chat_truncate leaves the legal file of the kept
   * messages, header and all.
   */
  lemma SentChatShortens(s: ChatStore.Store, keep: nat, stamp: string)
    requires ChatStore.Reachable(s) && s.cut <= |s.history| && keep < |s.history| - s.cut <= MAX_MESSAGES
             && LegalField(stamp)
    ensures LegalChat(ChatStore.LiveChat(s))
    ensures var kept := Kept(ChatStore.LiveChat(s), keep, stamp);
            LegalChat(kept) && Shorten(s.live, keep, stamp) == Replaced(Render(kept))
  {
    hide ChatStore.Reachable, ChatStore.Inv, ChatStore.OrderOk, LegalChat, Render, Shorten, Kept;
    ChatStore.ReachableInv(s);
    LiveIs(s);
    var c := ChatStore.LiveChat(s);
    KeptFew(s, keep, stamp);
    ShortenKeeps(c, keep, stamp);
  }

  lemma LiveIs(s: ChatStore.Store)
    requires ChatStore.Inv(s)
    ensures s.cut <= |s.history| && AllFit(s.history) && LegalChat(ChatStore.LiveChat(s))
            && s.live == Render(ChatStore.LiveChat(s))
  {
    hide ChatStore.ArchivesOk, ChatStore.OwnersOk, ChatStore.LockOk, ChatStore.HolderOk, LegalChat, Render, AllFit;
  }

  lemma KeptFew(s: ChatStore.Store, keep: nat, stamp: string)
    requires s.cut <= |s.history| && keep < |s.history| - s.cut && AllFit(s.history) && LegalChat(ChatStore.LiveChat(s))
    ensures |Kept(ChatStore.LiveChat(s), keep, stamp).participants| * (MAX_HANDLE_LEN + 14) < PARTS_BUFFER
  {
    hide Tally, Fits, LegalTable;
    var all, kept := Authors(s.history), Authors(ChatStore.LiveChat(s).messages[..keep]);
    AuthorsShort(s.history);
    forall h | h in kept ensures h in all {
      var i :| 0 <= i < |kept| && kept[i] == h;
      assert all[s.cut + i] == h;
    }
    FewerEntries(kept, all);
  }

  // ---------- more authors than the header names ----------

  /** 63 handles of 63 characters. */
  function Author(i: nat): (h: string)
    requires i < 63
    ensures |h| == 63 && forall k | 0 <= k < 63 :: h[k] == if k < i then 'a' else 'b'
  {
    seq(63, k requires 0 <= k < 63 => if k < i then 'a' else 'b')
  }

  function AuthorsTo(n: nat): (hs: seq<string>)
    requires n <= 63
    ensures |hs| == n && forall i | 0 <= i < n :: hs[i] == Author(i)
  {
    seq(n, i requires 0 <= i < n => Author(i))
  }

  function Once(n: nat): (ps: seq<Participant>)
    requires n <= 63
    ensures |ps| == n && forall i | 0 <= i < n :: ps[i] == Participant(Author(i), 1)
  {
    seq(n, i requires 0 <= i < n => Participant(Author(i), 1))
  }

  lemma AuthorsDiffer(i: nat, j: nat)
    requires i < j < 63
    ensures Author(i) != Author(j)
  {
    assert Author(i)[i] != Author(j)[i];
  }

  lemma {:induction false} TallyOnce(n: nat)
    requires n <= 63
    ensures Tally(AuthorsTo(n), MAX_PARTICIPANTS) == Once(n)
  {
    hide Author;
    if n > 0 {
      TallyOnce(n - 1);
      assert AuthorsTo(n)[..n - 1] == AuthorsTo(n - 1);
      var before, author := Once(n - 1), Author(n - 1);
      forall i | 0 <= i < |before| ensures before[i].handle != author {
        AuthorsDiffer(i, n - 1);
      }
      assert IndexOf(before, author) == n - 1;
      assert Once(n) == Once(n - 1) + [Participant(Author(n - 1), 1)];
    }
  }

  lemma {:induction false} LongFormat(ps: seq<Participant>)
    requires forall i | 0 <= i < |ps| :: |ps[i].handle| == 63
    ensures |Format(ps)| + 2 >= 68 * |ps|
  {
    hide Decimal.Print;
    if ps != [] {
      LongFormat(ps[1..]);
      assert |Entry(ps[0])| >= 66;
    }
  }

  function MessagesTo(n: nat): (ms: seq<Message>)
    requires n <= 63
    ensures |ms| == n && forall i | 0 <= i < n :: ms[i] == Message(Author(i), "x", 1)
  {
    seq(n, i requires 0 <= i < n => Message(Author(i), "x", 1))
  }

  lemma MessageFits(i: nat)
    requires i < 63
    ensures Fits(Message(Author(i), "x", 1))
  {
    var h := Author(i);
    CountLength(1);
    assert forall k | 0 <= k < 63 :: HandleChar(h[k]);
    assert |WireText(Message(h, "x", 1))| <= 100;
  }

  /**
   * A file of 63 messages by as many authors whose header names none of them: of the 62 that are kept the
   * header loses some.
   */
  lemma ManyAuthors()
    ensures var c := Chat("", "", [], MessagesTo(63));
            && LegalChat(c) && Shorten(Render(c), 62, "").Replaced? && Read(Shorten(Render(c), 62, "").text).Some?
            && var st := Read(Shorten(Render(c), 62, "").text).value;
            st.messages == SeenAll(MessagesTo(62)) && st.participants != Once(62)
  {
    hide Fits, Render, Shorten, Read, Tally, Format, IsHistogram, Author;
    var c := Chat("", "", [], MessagesTo(63));
    forall i | 0 <= i < 63 ensures Fits(c.messages[i]) {
      MessageFits(i);
    }
    ShortenReads(c, 62, "");
    assert c.messages[..62] == MessagesTo(62);
    assert Authors(MessagesTo(62)) == AuthorsTo(62);
    TallyOnce(62);
    LongFormat(Once(62));
  }
}
