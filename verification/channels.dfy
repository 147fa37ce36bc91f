/** Channel housekeeping: `clearEmptyChannels` drops listed channels that have
    nothing stored, and `changeChannel` validates and selects a channel typed by
    the user. */
module Channels {
  import opened Seqs
  import opened Records
  import opened CoolrState
  import opened ChannelNames
  import opened JsString

  /** A channel is empty when it has no timeline or its timeline has no entries. */
  predicate IsEmptyChannel(messages: map<string, seq<Entry>>, c: string) {
    c !in messages || |messages[c]| == 0
  }

  /** Removes from the channel list every channel whose timeline is absent or
      empty, keeping the order of the rest, and deletes those keys from the
      timelines. The unread list is left alone, and the default channel gets no
      protection. */
  function ClearEmptyChannels(st: State): (r: State)
    ensures forall c :: c in r.channels <==> c in st.channels && !IsEmptyChannel(st.messages, c)
    ensures IsSubseq(r.channels, st.channels)
    ensures forall c :: c in r.messages <==>
              c in st.messages && !(c in st.channels && IsEmptyChannel(st.messages, c))
    ensures forall c :: c in r.messages ==> r.messages[c] == st.messages[c]
    ensures r.unread == st.unread && r.selected == st.selected && r.profiles == st.profiles
    ensures r.ownKey == st.ownKey && r.relayUrl == st.relayUrl && r.tabActive == st.tabActive
  {
    var empty := Filter(st.channels, c => IsEmptyChannel(st.messages, c));
    if |empty| > 0 then
      st.(channels := Filter(st.channels, c => c !in empty),
          messages := map k | k in st.messages && k !in empty :: st.messages[k])
    else
      assert forall c :: c in st.channels ==> !IsEmptyChannel(st.messages, c) by {
        forall c | c in st.channels
          ensures !IsEmptyChannel(st.messages, c)
        {
          assert c in empty <==> IsEmptyChannel(st.messages, c);
        }
      }
      assert IsSubseq(st.channels, st.channels) by {
        SubseqRefl(st.channels);
      }
      st
  }

  lemma ClearEmptyPreservesInv(st: State)
    requires Inv(st)
    ensures Inv(ClearEmptyChannels(st))
  {
    var r := ClearEmptyChannels(st);
    assert UnreadLive(r) by {
      forall c | c in r.unread
        ensures c in r.channels && |r.Timeline(c)| > 0
      {
        assert c in st.unread;
        assert c in st.messages;
        assert c in r.messages;
      }
    }
    assert Tagged(r.messages) by {
      forall c | c in r.messages
        ensures TaggedWith(r.messages[c], c)
      {
        assert TaggedWith(st.messages[c], c);
      }
    }
  }

  /** Tidying twice is tidying once. */
  lemma ClearEmptyIdempotent(st: State)
    ensures ClearEmptyChannels(ClearEmptyChannels(st)) == ClearEmptyChannels(st)
  {
    var r := ClearEmptyChannels(st);
    var r2 := ClearEmptyChannels(r);
    assert forall c :: c in r.channels ==> !IsEmptyChannel(r.messages, c);
    var empty := Filter(r.channels, c => IsEmptyChannel(r.messages, c));
    assert forall c :: c !in empty;
    NoMembersEmpty(empty);
  }

  /** The default channel is removed like any other once it is empty: in the
      initial state the channel list becomes empty. */
  lemma ClearEmptyDropsDefault()
    ensures ClearEmptyChannels(Init()).channels == []
  {
    var r := ClearEmptyChannels(Init());
    assert forall c :: c !in r.channels;
    NoMembersEmpty(r.channels);
  }

  /** What `changeChannel` did. */
  datatype Selection = AlreadySelected | Rejected | Selected(channel: string)

  datatype Changed = Changed(state: State, outcome: Selection)

  /** `changeChannel(input)`: nothing happens when `input` is already the
      selected channel; otherwise every `#` is removed, and a name that fails
      `validChannelName` is rejected with the state unchanged. A valid name is
      registered (once), selected and removed from the unread list. */
  function ChangeChannel(st: State, input: string, isLN: CharClass): (r: Changed)
    ensures input == st.selected ==> r == Changed(st, AlreadySelected)
    ensures r.outcome.AlreadySelected? <==> input == st.selected
    ensures r.outcome.Rejected? <==>
              input != st.selected && !ValidChannelName(StripHashes(input), isLN)
    ensures r.outcome.Selected? <==>
              input != st.selected && ValidChannelName(StripHashes(input), isLN)
    ensures !r.outcome.Selected? ==> r.state == st
    ensures r.outcome.Selected? ==>
              var c := r.outcome.channel;
              && c == "#" + StripHashes(input)
              && r.state.selected == c
              && r.state.channels == Register(st.channels, c)
              && c !in r.state.unread
              && (forall x :: x in r.state.unread <==> x in st.unread && x != c)
              && IsSubseq(r.state.unread, st.unread)
              && r.state.messages == st.messages && r.state.profiles == st.profiles
              && r.state.ownKey == st.ownKey && r.state.relayUrl == st.relayUrl
              && r.state.tabActive == st.tabActive
  {
    if input == st.selected then Changed(st, AlreadySelected)
    else
      var cleansed := StripHashes(input);
      if !ValidChannelName(cleansed, isLN) then Changed(st, Rejected)
      else
        var c := "#" + cleansed;
        Changed(st.(channels := Register(st.channels, c), selected := c,
                    unread := Without(st.unread, c)),
                Selected(c))
  }

  lemma ChangeChannelPreservesInv(st: State, input: string, isLN: CharClass)
    requires Inv(st)
    ensures Inv(ChangeChannel(st, input, isLN).state)
  {
  }

  /** Choosing the same input twice has no further effect. */
  lemma ChangeChannelIdempotent(st: State, input: string, isLN: CharClass)
    ensures var once := ChangeChannel(st, input, isLN).state;
            ChangeChannel(once, input, isLN).state == once
  {
    var once := ChangeChannel(st, input, isLN);
    if once.outcome.Selected? {
      var c := once.outcome.channel;
      var twice := ChangeChannel(once.state, input, isLN);
      if twice.outcome.Selected? {
        assert twice.state.channels == once.state.channels;
        assert Without(once.state.unread, c) == once.state.unread by {
          WithoutAbsent(once.state.unread, c);
        }
      }
    }
  }

  lemma {:induction false} WithoutAbsent(s: seq<string>, x: string)
    requires x !in s
    ensures Without(s, x) == s
    decreases |s|
  {
    if |s| > 0 {
      WithoutAbsent(s[1..], x);
      assert Without(s, x) == [s[0]] + Without(s[1..], x);
      assert [s[0]] + s[1..] == s;
    }
  }

  /** A relay-derived broadcast channel `#bc_<name>` can never be selected by
      typing it: after the `#` is removed, `bc_<name>` contains an underscore. */
  lemma BroadcastChannelNotSelectable(st: State, name: string, isLN: CharClass)
    ensures ChangeChannel(st, "#bc_" + name, isLN).state == st
    ensures !ChangeChannel(st, "#bc_" + name, isLN).outcome.Selected?
  {
    var input := "#bc_" + name;
    StripHashesAppend("#bc_", name);
    var cleansed := StripHashes(input);
    assert StripHashes("#bc_") == "bc_";
    assert cleansed[2] == '_';
    assert cleansed != DefaultName;
    UnderscoreOnlyAlone(cleansed, isLN);
  }
}
