/** The relay `onevent` handler: classify a chat (kind 23333) or broadcast
    (kind 20000) event, derive its channel from its tags, enrich it, store it,
    and for a broadcast event overwrite the author's profile with the nickname
    the event asserts. Tags follow NIP-01: a list of strings whose first
    element is the tag name. */
module Classifier {
  import opened Wrappers
  import opened Records
  import opened CoolrState
  import opened ChannelNames
  import opened JsString
  import opened MessageStore

  const ChatKind := 23333
  const BitchatKind := 20000
  const BroadcastPrefix := "#bc_"

  predicate IsNamed(t: Tag, name: string) {
    |t| > 0 && t[0] == name
  }

  /** The first tag whose name is `name`, if any. */
  function FindTag(tags: seq<Tag>, name: string): (r: Option<Tag>)
    ensures r.None? <==> forall i :: 0 <= i < |tags| ==> !IsNamed(tags[i], name)
    ensures r.Some? ==> exists i :: 0 <= i < |tags| && tags[i] == r.value && IsNamed(r.value, name)
                                    && forall j :: 0 <= j < i ==> !IsNamed(tags[j], name)
  {
    if |tags| == 0 then None
    else if IsNamed(tags[0], name) then Some(tags[0])
    else
      var r := FindTag(tags[1..], name);
      assert r.Some? ==> exists i :: 0 <= i < |tags[1..]| && tags[1..][i] == r.value
                                     && forall j :: 0 <= j < i ==> !IsNamed(tags[1..][j], name);
      if r.Some? then
        var i :| 0 <= i < |tags[1..]| && tags[1..][i] == r.value
                 && forall j :: 0 <= j < i ==> !IsNamed(tags[1..][j], name);
        assert tags[i + 1] == r.value;
        assert forall j :: 0 <= j < i + 1 ==> !IsNamed(tags[j], name) by {
          forall j | 0 <= j < i + 1
            ensures !IsNamed(tags[j], name)
          {
            if j > 0 {
              assert tags[j] == tags[1..][j - 1];
            }
          }
        }
        r
      else
        assert forall i :: 0 <= i < |tags| ==> !IsNamed(tags[i], name) by {
          forall i | 0 <= i < |tags|
            ensures !IsNamed(tags[i], name)
          {
            if i > 0 {
              assert tags[i] == tags[1..][i - 1];
            }
          }
        }
        r
  }

  /** The tag's second element, or the empty string when the tag or that element
      is missing. */
  function TagValue(t: Option<Tag>): (v: string)
    ensures t.None? ==> v == ""
    ensures t.Some? && |t.value| < 2 ==> v == ""
    ensures t.Some? && |t.value| >= 2 ==> v == t.value[1]
    ensures v != "" ==> t.Some? && |t.value| >= 2 && v == t.value[1]
  {
    if t.Some? && |t.value| >= 2 then t.value[1] else ""
  }

  /** The nick tag's second element as it reads inside a string concatenation:
      when that element is missing it reads as the word `undefined`. */
  function NickText(t: Tag): string {
    if |t| >= 2 then t[1] else "undefined"
  }

  /** The display name a broadcast event asserts: nick, `#`, the last four
      characters of the author key. */
  function BroadcastName(nick: Tag, pubkey: string): (r: string)
    ensures |pubkey| >= 4 ==> r == NickText(nick) + "#" + pubkey[|pubkey| - 4..]
    ensures |pubkey| < 4 ==> r == NickText(nick) + "#" + pubkey
    ensures |nick| < 2 ==> r[..9] == "undefined"
  {
    LastFour(pubkey);
    NickText(nick) + "#" + SliceFrom(pubkey, -4)
  }

  /** An accepted event: its channel, the enriched event, and the profile
      overwrite a broadcast event carries. */
  datatype Accepted = Accepted(channel: string, event: Event, profile: Option<Profile>)

  /** The receipt time replaces the asserted timestamp; the event records its
      channel and the relay it came from. */
  function Enrich(ev: Event, now: int, relayUrl: string, channel: string): (r: Event)
    ensures r.createdAt == now && r.relayUrl == Some(relayUrl) && r.channel == Some(channel)
    ensures r.id == ev.id && r.pubkey == ev.pubkey && r.kind == ev.kind
    ensures r.tags == ev.tags && r.content == ev.content && r.sig == ev.sig
  {
    ev.(createdAt := now, relayUrl := Some(relayUrl), channel := Some(channel))
  }

  /** The value of the first `d` tag of a chat event. */
  function ChatName(ev: Event): string {
    TagValue(FindTag(ev.tags, "d"))
  }

  function Classify(ev: Event, relayUrl: string, now: int, ownKey: string, isLN: CharClass)
    : (r: Option<Accepted>)
    ensures r.Some? ==> r.value.event == Enrich(ev, now, relayUrl, r.value.channel)
    ensures ev.kind == ChatKind ==>
              && (r.Some? <==> ValidChannelName(ChatName(ev), isLN))
              && (r.Some? ==> r.value.channel == "#" + ChatName(ev) && r.value.profile.None?)
    ensures ev.kind == BitchatKind ==>
              var g := FindTag(ev.tags, "g");
              var n := FindTag(ev.tags, "n");
              && (r.Some? <==> g.Some? && n.Some? && ValidChannelName(TagValue(g), isLN))
              && (r.Some? ==>
                    && r.value.channel == BroadcastPrefix + TagValue(g)
                    && (r.value.profile.Some? <==> ev.pubkey != ownKey)
                    && (r.value.profile.Some? ==>
                          r.value.profile.value
                            == Profile(ev.pubkey, false, None, Some(BroadcastName(n.value, ev.pubkey)))))
    ensures ev.kind != ChatKind && ev.kind != BitchatKind ==> r.None?
  {
    if ev.kind == ChatKind then
      var channelTag := FindTag(ev.tags, "d");
      if ValidChannelName(TagValue(channelTag), isLN) then
        var channel := "#" + channelTag.value[1];
        Some(Accepted(channel, Enrich(ev, now, relayUrl, channel), None))
      else
        None
    else if ev.kind == BitchatKind then
      var channelTag := FindTag(ev.tags, "g");
      var nickTag := FindTag(ev.tags, "n");
      if channelTag.None? || nickTag.None? then None
      else if ValidChannelName(TagValue(channelTag), isLN) then
        var channel := BroadcastPrefix + channelTag.value[1];
        var profile :=
          if ev.pubkey != ownKey then
            Some(Profile(ev.pubkey, false, None, Some(BroadcastName(nickTag.value, ev.pubkey))))
          else None;
        Some(Accepted(channel, Enrich(ev, now, relayUrl, channel), profile))
      else
        None
    else
      None
  }

  /** The whole handler: classify, store, and apply a broadcast profile overwrite. */
  function OnEvent(st: State, ev: Event, now: int, isLN: CharClass): (r: Added)
    ensures Classify(ev, st.relayUrl, now, st.ownKey, isLN).None? ==> r == Added(st, false)
    ensures Classify(ev, st.relayUrl, now, st.ownKey, isLN).Some? ==>
              var a := Classify(ev, st.relayUrl, now, st.ownKey, isLN).value;
              && r.state.channels == Register(st.channels, a.channel)
              && r.state.messages == StoreEntry(st.messages, a.channel, Msg(a.event))
              && r.alert == MarkUnread(st, a.channel).0
              && r.state.unread == MarkUnread(st, a.channel).1
              && r.state.selected == st.selected && r.state.ownKey == st.ownKey
              && r.state.relayUrl == st.relayUrl && r.state.tabActive == st.tabActive
              && a.channel in r.state.channels
              && ContainsId(r.state.Timeline(a.channel), ev.id)
              && (forall c :: c != a.channel ==> r.state.Timeline(c) == st.Timeline(c))
              && (forall k :: k != ev.pubkey ==>
                    (k in r.state.profiles <==> k in st.profiles)
                    && (k in st.profiles ==> r.state.profiles[k] == st.profiles[k]))
              && (a.profile.Some? ==> ev.pubkey in r.state.profiles && r.state.profiles[ev.pubkey] == a.profile.value)
              && (a.profile.None? ==> r.state.profiles == st.profiles)
  {
    var c := Classify(ev, st.relayUrl, now, st.ownKey, isLN);
    if c.None? then Added(st, false)
    else
      AddMessageStores(st, c.value.channel, Msg(c.value.event));
      Deliver(st, c.value, ev.pubkey)
  }

  /** Stores an accepted event and applies the profile overwrite it carries. */
  function Deliver(st: State, a: Accepted, pubkey: string): Added {
    var added := AddMessage(st, a.channel, Msg(a.event));
    var profiles :=
      if a.profile.Some? then added.state.profiles[pubkey := a.profile.value]
      else added.state.profiles;
    Added(added.state.(profiles := profiles), added.alert)
  }

  /** Delivering a second copy of an accepted event, with the same id, channel
      and profile overwrite, changes nothing and raises no alert. */
  lemma DeliverTwice(st: State, a1: Accepted, a2: Accepted, pubkey: string)
    requires a1.event.id == a2.event.id
    requires a1.channel == a2.channel && a1.profile == a2.profile
    ensures var once := Deliver(st, a1, pubkey).state;
            var twice := Deliver(once, a2, pubkey);
            twice.state == once && !twice.alert
  {
    var first := AddMessage(st, a1.channel, Msg(a1.event));
    var once := Deliver(st, a1, pubkey).state;
    assert once == first.state.(profiles := once.profiles);
    var added := AddMessage(once, a2.channel, Msg(a2.event));
    assert added.state == once && !added.alert by {
      AddMessageIdempotent(st, a1.channel, Msg(a1.event), Msg(a2.event));
      assert AddMessage(first.state, a2.channel, Msg(a2.event)).state == first.state;
    }
    if a2.profile.Some? {
      assert once.profiles[pubkey := a2.profile.value] == once.profiles;
    }
  }

  /** Handling relay events keeps the state invariant. */
  lemma OnEventPreservesInv(st: State, ev: Event, now: int, isLN: CharClass)
    requires Inv(st)
    ensures Inv(OnEvent(st, ev, now, isLN).state)
  {
    var c := Classify(ev, st.relayUrl, now, st.ownKey, isLN);
    if c.Some? {
      AddMessagePreservesInv(st, c.value.channel, Msg(c.value.event));
    }
  }

  /** A relay delivering the same event again, at any later receipt time, changes
      nothing and raises no alert: the re-stamped copy has the stored id. */
  lemma OnEventRedelivered(st: State, ev: Event, now1: int, now2: int, isLN: CharClass)
    ensures var once := OnEvent(st, ev, now1, isLN).state;
            var twice := OnEvent(once, ev, now2, isLN);
            twice.state == once && !twice.alert
  {
    var c1 := Classify(ev, st.relayUrl, now1, st.ownKey, isLN);
    if c1.Some? {
      var once := Deliver(st, c1.value, ev.pubkey).state;
      var c2 := Classify(ev, once.relayUrl, now2, once.ownKey, isLN);
      SameClassification(ev, st.relayUrl, now1, now2, st.ownKey, isLN);
      DeliverTwice(st, c1.value, c2.value, ev.pubkey);
    }
  }

  /** Classification does not depend on the receipt time, except through the
      stamp it puts on the event. */
  lemma SameClassification(ev: Event, relayUrl: string, now1: int, now2: int, ownKey: string, isLN: CharClass)
    ensures var c1 := Classify(ev, relayUrl, now1, ownKey, isLN);
            var c2 := Classify(ev, relayUrl, now2, ownKey, isLN);
            && (c1.Some? <==> c2.Some?)
            && (c1.Some? ==> c2.value.channel == c1.value.channel && c2.value.profile == c1.value.profile
                             && c2.value.event.id == ev.id)
  {
  }

  /** Every channel the handler stores into is `#` followed by a valid name, or
      the broadcast prefix followed by a valid name. */
  lemma AcceptedChannelShape(ev: Event, relayUrl: string, now: int, ownKey: string, isLN: CharClass)
    requires Classify(ev, relayUrl, now, ownKey, isLN).Some?
    ensures var ch := Classify(ev, relayUrl, now, ownKey, isLN).value.channel;
            exists name :: ValidChannelName(name, isLN) && (ch == "#" + name || ch == BroadcastPrefix + name)
  {
    var ch := Classify(ev, relayUrl, now, ownKey, isLN).value.channel;
    if ev.kind == ChatKind {
      assert ValidChannelName(ChatName(ev), isLN) && ch == "#" + ChatName(ev);
    } else {
      var g := TagValue(FindTag(ev.tags, "g"));
      assert ValidChannelName(g, isLN) && ch == BroadcastPrefix + g;
    }
  }

  /** A chat event whose `d` tag is missing or invalid changes nothing: no entry,
      no channel, no unread mark. */
  lemma InvalidChatDropped(st: State, ev: Event, now: int, isLN: CharClass)
    requires ev.kind == ChatKind && !ValidChannelName(ChatName(ev), isLN)
    ensures OnEvent(st, ev, now, isLN) == Added(st, false)
  {
  }

  lemma MissingDTagDropped(st: State, ev: Event, now: int, isLN: CharClass)
    requires ev.kind == ChatKind
    requires forall i :: 0 <= i < |ev.tags| ==> !IsNamed(ev.tags[i], "d")
    ensures OnEvent(st, ev, now, isLN) == Added(st, false)
  {
    EmptyNameRejected(isLN);
  }

  /** A broadcast event overwrites its author's profile wholesale, so a verified
      author becomes unverified and loses the NIP-05 identifier on record. */
  lemma BroadcastRegressesVerification(st: State, ev: Event, now: int, isLN: CharClass)
    requires ev.kind == BitchatKind && ev.pubkey != st.ownKey
    requires Classify(ev, st.relayUrl, now, st.ownKey, isLN).Some?
    requires ev.pubkey in st.profiles && st.profiles[ev.pubkey].verified
    ensures ev.pubkey in OnEvent(st, ev, now, isLN).state.profiles
    ensures !OnEvent(st, ev, now, isLN).state.profiles[ev.pubkey].verified
    ensures OnEvent(st, ev, now, isLN).state.profiles[ev.pubkey].nip05 == None
  {
  }

  function ChatEvent(tags: seq<Tag>): Event {
    Event("id1", "ab1234", ChatKind, 0, tags, "hello", "sig", None, None)
  }

  /** A chat event tagged `["d", "general"]` is stored in `#general`, stamped with
      the receipt time and the active relay. */
  lemma ChatExample(st: State, now: int, isLN: CharClass)
    ensures var ev := ChatEvent([["d", "general"]]);
            var a := Classify(ev, st.relayUrl, now, st.ownKey, isLN);
            a.Some? && a.value.channel == "#general"
            && a.value.event.createdAt == now && a.value.event.relayUrl == Some(st.relayUrl)
  {
    var ev := ChatEvent([["d", "general"]]);
    assert FindTag(ev.tags, "d") == Some(["d", "general"]);
    AsciiNameAccepted("general", isLN);
  }

  /** A chat event tagged `["d", "bad!name"]` is dropped. */
  lemma BadChatNameExample(st: State, now: int, isLN: CharClass)
    ensures OnEvent(st, ChatEvent([["d", "bad!name"]]), now, isLN) == Added(st, false)
  {
    var ev := ChatEvent([["d", "bad!name"]]);
    assert FindTag(ev.tags, "d") == Some(["d", "bad!name"]);
    AsciiSymbolRejected("bad!name", 3, isLN);
  }

  /** A broadcast event tagged `["g", "zone1"], ["n", "alice"]` from another author
      is stored in `#bc_zone1` and names its author `alice#1234`. */
  lemma BroadcastExample(st: State, now: int, isLN: CharClass)
    requires st.ownKey != "ab1234"
    ensures var ev := ChatEvent([["g", "zone1"], ["n", "alice"]]).(kind := BitchatKind);
            var a := Classify(ev, st.relayUrl, now, st.ownKey, isLN);
            a.Some? && a.value.channel == "#bc_zone1"
            && a.value.profile == Some(Profile("ab1234", false, None, Some("alice#1234")))
  {
    var ev := ChatEvent([["g", "zone1"], ["n", "alice"]]).(kind := BitchatKind);
    assert FindTag(ev.tags, "g") == Some(["g", "zone1"]);
    assert FindTag(ev.tags, "n") == Some(["n", "alice"]);
    AsciiNameAccepted("zone1", isLN);
    LastFour("ab1234");
    assert SliceFrom("ab1234", -4) == "1234";
    assert NickText(["n", "alice"]) == "alice";
    assert "alice" + "#" + "1234" == "alice#1234";
  }
}
