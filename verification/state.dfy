/** The in-memory state aggregate of `CoolrState`: the operator's key, the
    profile registry, the per-channel timelines, the ordered channel list, the
    unread list, the selected channel, the active relay and whether the tab is
    in the foreground. */
module CoolrState {
  import opened Wrappers
  import opened Seqs
  import opened Records

  /** Maximum number of entries kept per channel. */
  const MaxMessages := 500
  const DefaultChannel := "#_"

  datatype State = State(
    ownKey: string,
    profiles: map<string, Profile>,
    messages: map<string, seq<Entry>>,
    channels: seq<string>,
    unread: seq<string>,
    selected: string,
    relayUrl: string,
    tabActive: bool)
  {
    function Timeline(c: string): seq<Entry> {
      Lookup(messages, c)
    }
  }

  /** The timeline stored for `c`, or the empty timeline when there is none. */
  function Lookup(messages: map<string, seq<Entry>>, c: string): seq<Entry> {
    if c in messages then messages[c] else []
  }

  /** The state a fresh `CoolrState` starts in, before the cache is loaded. */
  function Init(): (st: State)
    ensures Inv(st)
    ensures st.channels == [DefaultChannel] && st.selected == DefaultChannel
    ensures st.unread == [] && st.messages == map[]
    ensures st.ownKey == "" && st.profiles == map[] && st.relayUrl == "" && st.tabActive
  {
    State("", map[], map[], [DefaultChannel], [], DefaultChannel, "", true)
  }

  /** Adds `c` at the end of the channel list unless it is already listed. */
  function Register(channels: seq<string>, c: string): (r: seq<string>)
    ensures c in r
    ensures forall x :: x in r <==> x in channels || x == c
    ensures channels <= r && |r| <= |channels| + 1
    ensures c in channels ==> r == channels
    ensures NoDup(channels) ==> NoDup(r)
  {
    if c in channels then channels else channels + [c]
  }

  /** Every channel that has a timeline is in the channel list. */
  predicate TimelinesRegistered(st: State) {
    forall c :: c in st.messages ==> c in st.channels
  }

  /** No timeline exceeds the per-channel cap. */
  predicate Bounded(messages: map<string, seq<Entry>>) {
    forall c :: c in messages ==> |messages[c]| <= MaxMessages
  }

  /** An unread channel is listed and has something to read. */
  predicate UnreadLive(st: State) {
    forall c :: c in st.unread ==> c in st.channels && |st.Timeline(c)| > 0
  }

  /** Every relay event in `s` carries channel `c`. */
  predicate TaggedWith(s: seq<Entry>, c: string) {
    forall i :: 0 <= i < |s| && s[i].Msg? ==> s[i].ev.channel == Some(c)
  }

  /** Every stored relay event carries the channel it is stored under. */
  predicate Tagged(messages: map<string, seq<Entry>>) {
    forall c :: c in messages ==> TaggedWith(messages[c], c)
  }

  predicate Inv(st: State) {
    && NoDup(st.channels)
    && NoDup(st.unread)
    && TimelinesRegistered(st)
    && Bounded(st.messages)
    && UnreadLive(st)
    && Tagged(st.messages)
  }
}
