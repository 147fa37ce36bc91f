/** `addMessageToChannel`: register the channel, apply the unread/alert rule,
    drop a relay event whose id is already stored, otherwise append and keep the
    newest 500 entries. */
module MessageStore {
  import opened Wrappers
  import opened Seqs
  import opened Records
  import opened CoolrState

  /** The state after the call, and whether the sound alert was requested. */
  datatype Added = Added(state: State, alert: bool)

  predicate ContainsId(entries: seq<Entry>, id: string) {
    exists i :: 0 <= i < |entries| && entries[i].Id() == id
  }

  /** Only relay events are checked for duplicates, but against every stored
      entry that has the same id. */
  predicate IsDuplicateIn(messages: map<string, seq<Entry>>, c: string, e: Entry): (dup: bool)
    ensures e.Sys? ==> !dup
    ensures c !in messages ==> !dup
    ensures dup <==> e.Msg? && c in messages
                     && exists i :: 0 <= i < |messages[c]| && messages[c][i].Id() == e.ev.id
  {
    e.Msg? && ContainsId(Lookup(messages, c), e.Id())
  }

  predicate IsDuplicate(st: State, c: string, e: Entry) {
    IsDuplicateIn(st.messages, c, e)
  }

  /** The timeline part of the call: a duplicate relay event leaves every
      timeline as it was; anything else is appended to channel `c`, whose
      timeline keeps its newest 500 entries, and no other timeline changes. */
  function StoreEntry(messages: map<string, seq<Entry>>, c: string, e: Entry): (m: map<string, seq<Entry>>)
    ensures IsDuplicateIn(messages, c, e) ==> m == messages
    ensures !IsDuplicateIn(messages, c, e) ==>
              && c in m
              && IsSuffix(m[c], Lookup(messages, c) + [e])
              && |m[c]| == Min(MaxMessages, |Lookup(messages, c)| + 1)
              && m[c][|m[c]| - 1] == e
    ensures forall k :: k != c ==> (k in m <==> k in messages)
    ensures forall k :: k != c && k in messages ==> m[k] == messages[k]
  {
    var current := Lookup(messages, c);
    if e.Msg? && ContainsId(current, e.Id()) then messages
    else messages[c := Newest(current + [e], MaxMessages)]
  }

  /** The unread part of the call: whether the alert fires, and the new unread list. */
  function MarkUnread(st: State, c: string): (r: (bool, seq<string>))
    ensures r.0 <==> (c != st.selected || !st.tabActive) && c !in st.unread
    ensures r.1 == (if r.0 then st.unread + [c] else st.unread)
  {
    var alert :=
      if c != st.selected then c !in st.unread
      else if !st.tabActive then c !in st.unread
      else false;
    (alert, if alert then st.unread + [c] else st.unread)
  }

  function AddMessage(st: State, c: string, e: Entry): (r: Added)
    ensures r.state.channels == Register(st.channels, c)
    ensures r.alert <==> (c != st.selected || !st.tabActive) && c !in st.unread
    ensures r.state.unread == (if r.alert then st.unread + [c] else st.unread)
    ensures r.state.messages == StoreEntry(st.messages, c, e)
    ensures r.state.ownKey == st.ownKey && r.state.profiles == st.profiles
    ensures r.state.selected == st.selected && r.state.relayUrl == st.relayUrl
    ensures r.state.tabActive == st.tabActive
  {
    var channels := Register(st.channels, c);
    var (alert, unread) := MarkUnread(st, c);
    var messages := StoreEntry(st.messages, c, e);
    Added(st.(channels := channels, unread := unread, messages := messages), alert)
  }

  lemma MarkUnreadNoDup(st: State, c: string)
    requires NoDup(st.unread)
    ensures NoDup(MarkUnread(st, c).1)
  {
    var (alert, unread) := MarkUnread(st, c);
    if alert {
      forall i, j | 0 <= i < j < |unread|
        ensures unread[i] != unread[j]
      {
        if j == |st.unread| {
          assert unread[i] == st.unread[i];
        }
      }
    }
  }

  lemma StoreEntryBounded(messages: map<string, seq<Entry>>, c: string, e: Entry)
    requires Bounded(messages)
    ensures Bounded(StoreEntry(messages, c, e))
  {
    var m := StoreEntry(messages, c, e);
    if !IsDuplicateIn(messages, c, e) {
      forall k | k in m
        ensures |m[k]| <= MaxMessages
      {
        if k != c {
          assert m[k] == messages[k];
        }
      }
    }
  }

  lemma TaggedAppendSuffix(t: seq<Entry>, e: Entry, w: seq<Entry>, c: string)
    requires TaggedWith(t, c)
    requires e.Msg? ==> e.ev.channel == Some(c)
    requires IsSuffix(w, t + [e])
    ensures TaggedWith(w, c)
  {
    var b := t + [e];
    forall i | 0 <= i < |w| && w[i].Msg?
      ensures w[i].ev.channel == Some(c)
    {
      var j := |b| - |w| + i;
      assert w[i] == b[j];
      if j < |t| {
        assert b[j] == t[j];
      }
    }
  }

  lemma StoreEntryTagged(messages: map<string, seq<Entry>>, c: string, e: Entry)
    requires Tagged(messages)
    requires e.Msg? ==> e.ev.channel == Some(c)
    ensures Tagged(StoreEntry(messages, c, e))
  {
    var m := StoreEntry(messages, c, e);
    if !IsDuplicateIn(messages, c, e) {
      assert TaggedWith(Lookup(messages, c), c);
      TaggedAppendSuffix(Lookup(messages, c), e, m[c], c);
      forall k | k in m
        ensures TaggedWith(m[k], k)
      {
        if k != c {
          assert m[k] == messages[k];
        }
      }
    }
  }

  /** After the call channel `c` holds at least one entry: the stored copy of a
      duplicate or the entry just appended. */
  lemma StoreEntryNonEmpty(messages: map<string, seq<Entry>>, c: string, e: Entry)
    ensures |Lookup(StoreEntry(messages, c, e), c)| > 0
    ensures e.Msg? ==> IsDuplicateIn(StoreEntry(messages, c, e), c, e)
  {
    var m := StoreEntry(messages, c, e);
    if !IsDuplicateIn(messages, c, e) {
      var w := m[c];
      assert Lookup(m, c) == w && w[|w| - 1] == e;
      if e.Msg? {
        assert w[|w| - 1].Id() == e.ev.id;
      }
    }
  }

  /** After the call the channel is listed and holds the entry's id, and every
      other channel's timeline is as it was. */
  lemma AddMessageStores(st: State, c: string, e: Entry)
    ensures var s := AddMessage(st, c, e).state;
            && c in s.channels
            && ContainsId(s.Timeline(c), e.Id())
            && forall k :: k != c ==> s.Timeline(k) == st.Timeline(k)
  {
    StoreEntryNonEmpty(st.messages, c, e);
  }

  /** Adding keeps the state invariant, provided a relay event is stored under the
      channel it was tagged with. */
  lemma AddMessagePreservesInv(st: State, c: string, e: Entry)
    requires Inv(st)
    requires e.Msg? ==> e.ev.channel == Some(c)
    ensures Inv(AddMessage(st, c, e).state)
  {
    var s := AddMessage(st, c, e).state;
    MarkUnreadNoDup(st, c);
    StoreEntryBounded(st.messages, c, e);
    StoreEntryTagged(st.messages, c, e);
    assert TimelinesRegistered(s) by {
      forall k | k in s.messages
        ensures k in s.channels
      {
        if k != c {
          assert k in st.messages;
        }
      }
    }
    assert UnreadLive(s) by {
      StoreEntryNonEmpty(st.messages, c, e);
      forall k | k in s.unread
        ensures k in s.channels && |s.Timeline(k)| > 0
      {
        if k != c {
          assert k in st.unread;
          assert k in st.messages;
          assert s.Timeline(k) == st.Timeline(k);
        }
      }
    }
  }

  /** Storing the same relay event twice in a channel leaves exactly the state
      (and the absence of a second alert) that storing it once did. */
  lemma AddMessageIdempotent(st: State, c: string, e1: Entry, e2: Entry)
    requires e1.Msg? && e2.Msg? && e1.ev.id == e2.ev.id
    ensures var once := AddMessage(st, c, e1).state;
            var twice := AddMessage(once, c, e2);
            twice.state == once && !twice.alert
  {
    var once := AddMessage(st, c, e1).state;
    StoreEntryNonEmpty(st.messages, c, e1);
    var twice := AddMessage(once, c, e2);
    assert twice.state.messages == once.messages;
    assert twice.state.channels == once.channels;
    assert twice.state.unread == once.unread;
  }

  /** Registration and the unread rule run before the duplicate check: a dropped
      duplicate can still mark its channel unread and request the alert. */
  lemma DuplicateStillMarksUnread(st: State, c: string, e: Entry)
    requires IsDuplicate(st, c, e)
    requires c != st.selected && c !in st.unread
    ensures var r := AddMessage(st, c, e);
            r.state.messages == st.messages && r.alert && c in r.state.unread
  {
  }

  /** The unread list gains `c` at most once, however many entries arrive for it. */
  lemma UnreadOnce(st: State, c: string, e1: Entry, e2: Entry)
    requires NoDup(st.unread)
    ensures var s1 := AddMessage(st, c, e1).state;
            var s2 := AddMessage(s1, c, e2);
            !s2.alert && s2.state.unread == s1.unread && NoDup(s1.unread)
  {
    MarkUnreadNoDup(st, c);
    var s1 := AddMessage(st, c, e1);
    if s1.alert {
      assert c in s1.state.unread;
    }
  }

  /** Appending a series of entries to one channel, one call at a time. */
  function AddAll(st: State, c: string, es: seq<Entry>): State
    decreases |es|
  {
    if |es| == 0 then st else AddAll(AddMessage(st, c, es[0]).state, c, es[1..])
  }

  /** No relay event repeats the id of an earlier entry. */
  predicate FreshIds(s: seq<Entry>) {
    forall i, j :: 0 <= i < j < |s| && s[j].Msg? ==> s[i].Id() != s[j].Id()
  }

  lemma FreshIdsSuffix(a: seq<Entry>, b: seq<Entry>)
    requires FreshIds(b) && IsSuffix(a, b)
    ensures FreshIds(a)
  {
    forall i, j | 0 <= i < j < |a| && a[j].Msg?
      ensures a[i].Id() != a[j].Id()
    {
      assert a[i] == b[|b| - |a| + i] && a[j] == b[|b| - |a| + j];
    }
  }

  /** The first appended entry of a fresh series is never a duplicate. */
  lemma FreshHeadStored(st: State, c: string, es: seq<Entry>)
    requires |es| > 0 && FreshIds(st.Timeline(c) + es)
    ensures AddMessage(st, c, es[0]).state.Timeline(c) == Newest(st.Timeline(c) + [es[0]], MaxMessages)
  {
    var t := st.Timeline(c);
    var e := es[0];
    assert !IsDuplicate(st, c, e) by {
      if e.Msg? {
        forall i | 0 <= i < |t|
          ensures t[i].Id() != e.Id()
        {
          assert (t + es)[i] == t[i] && (t + es)[|t|] == e;
        }
      }
    }
  }

  /** Appending the same entries keeps the suffix relation. */
  lemma SuffixAppend(a: seq<Entry>, b: seq<Entry>, r: seq<Entry>)
    requires IsSuffix(a, b)
    ensures IsSuffix(a + r, b + r)
  {
    forall i | 0 <= i < |a + r|
      ensures (a + r)[i] == (b + r)[|b + r| - |a + r| + i]
    {
      if i < |a| {
        assert (a + r)[i] == a[i] == b[|b| - |a| + i];
      }
    }
  }

  /** When no relay event is a repeat, the channel ends up holding exactly the
      newest 500 entries of everything it held plus everything appended: the
      oldest are evicted first. */
  lemma {:induction false} AddAllKeepsNewest(st: State, c: string, es: seq<Entry>)
    requires FreshIds(st.Timeline(c) + es)
    requires |st.Timeline(c)| <= MaxMessages
    ensures AddAll(st, c, es).Timeline(c) == Newest(st.Timeline(c) + es, MaxMessages)
    decreases |es|
  {
    var t := st.Timeline(c);
    if |es| == 0 {
      assert t + es == t;
    } else {
      var e := es[0];
      var rest := es[1..];
      var s1 := AddMessage(st, c, e).state;
      var t1 := s1.Timeline(c);
      assert t + es == (t + [e]) + rest;
      assert t1 == Newest(t + [e], MaxMessages) by {
        FreshHeadStored(st, c, es);
      }
      assert FreshIds(t1 + rest) && |t1| <= MaxMessages by {
        SuffixAppend(t1, t + [e], rest);
        FreshIdsSuffix(t1 + rest, t + es);
      }
      assert AddAll(s1, c, rest).Timeline(c) == Newest(t1 + rest, MaxMessages) by {
        AddAllKeepsNewest(s1, c, rest);
      }
      assert Newest(t1 + rest, MaxMessages) == Newest(t + es, MaxMessages) by {
        NewestAppend(t + [e], rest, MaxMessages);
      }
    }
  }
}
