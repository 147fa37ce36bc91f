/** The two decisions the relay connection makes from state alone: which
    authors the kind-0 metadata subscription asks for, and whether a closed
    connection is reopened. */
module Subscriptions {
  import opened Wrappers
  import opened Seqs
  import opened Records
  import opened CoolrState

  const MetadataKind := 0
  const MetadataRelayUrl := "wss://purplepag.es"
  const FallbackRelayUrl := "wss://relay.primal.net"

  /** The relay's own close reason when this client closed the connection. */
  const ClosedByUs := "relay connection closed by us"
  const ReconnectDelayMs := 5000

  /** The author keys of the relay events among `entries`, in order, repeats
      kept; system entries have no author and are skipped. */
  function EventAuthors(entries: seq<Entry>): (r: seq<string>)
    ensures forall k :: k in r <==> exists i :: 0 <= i < |entries| && IsAuthorAt(entries, i, k)
  {
    if |entries| == 0 then []
    else
      var rest := EventAuthors(entries[1..]);
      var r := if entries[0].Msg? then [entries[0].ev.pubkey] + rest else rest;
      assert forall k :: k in r <==> exists i :: 0 <= i < |entries| && IsAuthorAt(entries, i, k) by {
        forall k
          ensures k in r <==> exists i :: 0 <= i < |entries| && IsAuthorAt(entries, i, k)
        {
          if entries[0].Msg? && k == entries[0].ev.pubkey {
            assert IsAuthorAt(entries, 0, k);
          }
          if k in rest {
            var j :| 0 <= j < |entries[1..]| && IsAuthorAt(entries[1..], j, k);
            assert IsAuthorAt(entries, j + 1, k);
          }
          if exists i :: 0 <= i < |entries| && IsAuthorAt(entries, i, k) {
            var i :| 0 <= i < |entries| && IsAuthorAt(entries, i, k);
            if i > 0 {
              assert IsAuthorAt(entries[1..], i - 1, k);
            }
          }
        }
      }
      r
  }

  predicate IsAuthorAt(entries: seq<Entry>, i: int, k: string)
    requires 0 <= i < |entries|
  {
    entries[i].Msg? && entries[i].ev.pubkey == k
  }

  /** All timelines concatenated, in the order given. */
  function Flatten(groups: seq<seq<Entry>>): (r: seq<Entry>)
    ensures forall e :: e in r <==> exists g :: g in groups && e in g
  {
    if |groups| == 0 then []
    else
      var rest := Flatten(groups[1..]);
      assert forall g :: g in groups <==> g == groups[0] || g in groups[1..];
      groups[0] + rest
  }

  /** Position of the first occurrence of `x`. */
  function FirstIndex(xs: seq<string>, x: string): (r: nat)
    requires x in xs
    ensures r < |xs| && xs[r] == x
    ensures forall j :: 0 <= j < r ==> xs[j] != x
  {
    if xs[0] == x then 0 else 1 + FirstIndex(xs[1..], x)
  }

  /** First positions are unchanged by appending; a value new to the prefix
      first occurs at the end. */
  lemma FirstIndexOfPrefix(xs: seq<string>)
    requires |xs| > 0
    ensures forall x :: x in xs[..|xs| - 1] ==> FirstIndex(xs, x) == FirstIndex(xs[..|xs| - 1], x)
    ensures xs[|xs| - 1] !in xs[..|xs| - 1] ==> FirstIndex(xs, xs[|xs| - 1]) == |xs| - 1
  {
    var init := xs[..|xs| - 1];
    forall x | x in init
      ensures FirstIndex(xs, x) == FirstIndex(init, x)
    {
      var b := FirstIndex(init, x);
      assert xs[b] == x;
      assert forall j :: 0 <= j < b ==> xs[j] == init[j];
    }
  }

  /** Keeps a value only at the position where it first occurs, so every value
      appears once, in first-occurrence order. */
  function Distinct(xs: seq<string>): (r: seq<string>)
    ensures NoDup(r)
    ensures forall x :: x in r <==> x in xs
    ensures forall i, j :: 0 <= i < j < |r| ==> FirstIndex(xs, r[i]) < FirstIndex(xs, r[j])
  {
    if |xs| == 0 then []
    else
      var init := xs[..|xs| - 1];
      var last := xs[|xs| - 1];
      var d := Distinct(init);
      assert xs == init + [last];
      FirstIndexOfPrefix(xs);
      if last in d then d else d + [last]
  }

  /** The author list of the metadata subscription: the distinct authors of
      every stored relay event, then the operator's own key when it is set and
      not already listed. */
  function MetadataAuthors(groups: seq<seq<Entry>>, ownKey: string): (r: seq<string>)
    ensures NoDup(r)
    ensures forall k :: k in r <==>
              (k == ownKey && ownKey != "") || exists e :: e in Flatten(groups) && e.Msg? && e.ev.pubkey == k
  {
    var entries := Flatten(groups);
    var keys := Distinct(EventAuthors(entries));
    assert forall k :: k in keys <==> exists e :: e in entries && e.Msg? && e.ev.pubkey == k by {
      forall k
        ensures k in keys <==> exists e :: e in entries && e.Msg? && e.ev.pubkey == k
      {
        if k in keys {
          var i :| 0 <= i < |entries| && IsAuthorAt(entries, i, k);
          assert entries[i] in entries;
        }
        if exists e :: e in entries && e.Msg? && e.ev.pubkey == k {
          var e :| e in entries && e.Msg? && e.ev.pubkey == k;
          var i :| 0 <= i < |entries| && entries[i] == e;
          assert IsAuthorAt(entries, i, k);
        }
      }
    }
    if ownKey != "" && ownKey !in keys then keys + [ownKey] else keys
  }

  /** A metadata subscription request. */
  datatype Subscription = Subscription(relays: seq<string>, kinds: seq<int>, authors: seq<string>)

  /** `subscribeMetadata`: no request when there is nobody to ask about;
      otherwise one request for kind 0 from the metadata relay, the active relay
      and the fallback relay. */
  function SubscribeMetadata(groups: seq<seq<Entry>>, ownKey: string, relayUrl: string)
    : (r: Option<Subscription>)
    ensures r.None? <==>
              ownKey == "" && forall e :: e in Flatten(groups) ==> !e.Msg?
    ensures r.Some? ==>
              && r.value.relays == [MetadataRelayUrl, relayUrl, FallbackRelayUrl]
              && r.value.kinds == [MetadataKind]
              && r.value.authors == MetadataAuthors(groups, ownKey)
              && |r.value.authors| > 0
  {
    var authors := MetadataAuthors(groups, ownKey);
    NoMembersEmpty(authors);
    assert forall e :: e in Flatten(groups) && e.Msg? ==> e.ev.pubkey in authors;
    if |authors| == 0 then None
    else
      assert authors[0] in authors;
      Some(Subscription([MetadataRelayUrl, relayUrl, FallbackRelayUrl], [MetadataKind], authors))
  }

  /** `groups` lists every timeline of the state and nothing else. */
  predicate ListsTimelines(groups: seq<seq<Entry>>, st: State) {
    && (forall c :: c in st.messages ==> st.messages[c] in groups)
    && (forall g :: g in groups ==> exists c :: c in st.messages && st.messages[c] == g)
  }

  /** Over a state, the subscription asks exactly for the authors of stored
      relay events, plus the operator. */
  lemma AuthorsOfState(st: State, groups: seq<seq<Entry>>, k: string)
    requires ListsTimelines(groups, st)
    ensures k in MetadataAuthors(groups, st.ownKey) <==>
              (k == st.ownKey && st.ownKey != "")
              || exists c, i :: c in st.messages && 0 <= i < |st.messages[c]|
                                && st.messages[c][i].Msg? && st.messages[c][i].ev.pubkey == k
  {
    var all := Flatten(groups);
    if exists e :: e in all && e.Msg? && e.ev.pubkey == k {
      var e :| e in all && e.Msg? && e.ev.pubkey == k;
      var g :| g in groups && e in g;
      var c :| c in st.messages && st.messages[c] == g;
      var i :| 0 <= i < |g| && g[i] == e;
      assert st.messages[c][i].Msg? && st.messages[c][i].ev.pubkey == k;
    }
    if exists c, i :: c in st.messages && 0 <= i < |st.messages[c]|
                      && st.messages[c][i].Msg? && st.messages[c][i].ev.pubkey == k {
      var c, i :| c in st.messages && 0 <= i < |st.messages[c]|
                  && st.messages[c][i].Msg? && st.messages[c][i].ev.pubkey == k;
      var e := st.messages[c][i];
      assert e in st.messages[c];
      assert e in all;
    }
  }

  /** Whether `onclose` schedules a reconnection. */
  datatype CloseAction = StayClosed | ReconnectAfter(delayMs: nat)

  /** A close is followed by exactly one reconnection attempt after five seconds,
      unless one of the reasons says this client closed the connection. */
  function OnClose(reasons: seq<string>): (r: CloseAction)
    ensures r.StayClosed? <==> exists i :: 0 <= i < |reasons| && reasons[i] == ClosedByUs
    ensures r.ReconnectAfter? ==> r.delayMs == ReconnectDelayMs
  {
    if !(ClosedByUs in reasons) then ReconnectAfter(ReconnectDelayMs) else StayClosed
  }
}
