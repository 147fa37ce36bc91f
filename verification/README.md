# coolr-web state reconciliation, modelled in Dafny

This project models the in-memory core of the coolr chat client's `CoolrState`.
The client reads chat messages from Nostr relays. The model covers how it turns
relay events into per-channel timelines, channel lists, unread marks and author
profiles. Every operation is a pure function from one immutable `State` to the
next. The two string helpers the core depends on are modelled too:
`validChannelName` and `truncateMiddle`.

Modules:

- `Wrappers`: `Option`.
- `Seqs`: duplicate-freedom, subsequences, suffixes and `filter`. Also the "newest n" window.
- `Records`: the record shapes of `src/lib/db.ts`. `Entry = Msg | Sys` replaces the source's `'pubkey' in msg` test.
- `JsString`: `String.prototype.slice` with relative indices, and `replaceAll('#', '')`.
- `ChannelNames`: `validChannelName`. The Unicode class `[\p{L}\p{N}]` is a parameter `isLN: CharClass`. `CharClass` is every `char -> bool` that agrees with `[A-Za-z0-9]` on the code points below 128. The real class does agree there, so facts about `_`, `#`, spaces and punctuation are proved without fixing the Unicode tables.
- `Truncation`: `truncateMiddle`, as written and corrected (see Findings).
- `CoolrState`: the `State` aggregate, its initial value, channel registration, and the state invariant `Inv`. `Inv` says: no duplicate channels or unread marks; every timeline is listed; no timeline exceeds 500 entries; every unread channel is listed and non-empty; every stored relay event carries its own channel.
- `MessageStore`: `addMessageToChannel`.
- `Channels`: `clearEmptyChannels` and `changeChannel`.
- `Profiles`: the kind-0 metadata merge.
- `Classifier`: the relay `onevent` handler for kinds 23333 and 20000.
- `Subscriptions`: the author list of the metadata subscription and the `onclose` reconnect decision.

Inputs the source reads from the environment are parameters:
- `now` stands for `Math.floor(Date.now() / 1000)`.
- `tabActive` is a field of `State`. It is set by the `visibilitychange` listener, which is not modelled.
- The parsed kind-0 JSON is an `Option<Meta>`.

The model follows the code as written. In particular:
- A duplicate relay event still registers its channel and can still mark it unread. Both steps run before the duplicate check (`MessageStore.DuplicateStillMarksUnread`).
- The duplicate check compares the new event's id with every stored entry. Locally made system entries also carry an `id`, so they count too.
- A kind-20000 event replaces its author's profile outright. This can turn `verified` from true back to false and drop the NIP-05 id (`Classifier.BroadcastRegressesVerification`). Kind-0 merges never lower `verified`.
- A kind-0 merge overwrites `name` even when the metadata has no name (`Profiles.MergeClearsName`).
- `clearEmptyChannels` does not protect the default channel `#_` (`Channels.ClearEmptyDropsDefault`).
- `changeChannel` removes every `#` from the input, not only a leading one. The length limit is 12 code points. The rejection message says 24.
- `#bc_…` broadcast channels can never be selected by typing their name (`Channels.BroadcastChannelNotSelectable`).

## Model

| member | source | states |
|---|---|---|
| ChannelNames.ValidChannelName | src/lib/index.ts:17-21 | a name is valid iff it is `_` or has 1 to 12 code points, each a Unicode letter or number |
| ChannelNames.MatchesNamePattern | src/lib/index.ts:18 | the anchored pattern accepts exactly the lone `_` and the names of 1 to 12 code points that all belong to the class |
| ChannelNames.ClassRun | src/lib/index.ts:18 | the greedy `[\p{L}\p{N}]*` match at the start of a name: every code point it covers is in the class, and the next one is not |
| ChannelNames.EmptyNameRejected | src/lib/index.ts:18-20 | the empty string is not a valid channel name |
| ChannelNames.LongNameRejected | src/lib/index.ts:18 | a name longer than 12 code points is rejected, whatever its characters |
| ChannelNames.AsciiSymbolRejected | src/lib/index.ts:18-20 | any ASCII character other than a letter or digit rejects a name, unless the name is exactly `_`; this covers `#`, `_`, space and punctuation |
| ChannelNames.UnderscoreOnlyAlone | src/lib/index.ts:18-19 | a name containing `_` is valid exactly when it is `_` |
| ChannelNames.AsciiNameAccepted | src/lib/index.ts:18 | 1 to 12 ASCII letters and digits form a valid name for every admissible Unicode class |
| ChannelNames.NameExamples | src/lib/index.ts:17-21 | `general` and `zone1` are valid; `bad!name` and `#general` are not |
| JsString.RelativeIndex | src/lib/index.ts:4 | a `slice` index counts from the end when negative and is clamped to the string |
| JsString.Slice | src/lib/index.ts:4 | `slice(start, end)` is the substring between the two resolved indices, or empty when they cross |
| JsString.SliceFrom | src/lib/index.ts:4 | `slice(start)` is the suffix of the string that begins at the resolved start index |
| JsString.LastFour | src/lib/coolr-state.svelte.ts:296 | `pubkey.slice(-4)` is the last four characters, or the whole key when it is shorter |
| JsString.StripHashes | src/lib/coolr-state.svelte.ts:484 | `replaceAll('#', '')` leaves no `#` and keeps every other character |
| JsString.StripHashesAppend | src/lib/coolr-state.svelte.ts:484 | removing `#` from a concatenation removes it from each part |
| Truncation.TruncateMiddle | src/lib/index.ts:1-5 | a string within the bound is returned as is; for bounds of at least 5 the result is head + `...` + tail with `h = floor((m-3)/2)` characters on each side, and it fits the bound |
| Truncation.TruncateKeepsEnds | src/lib/index.ts:3-4 | for bounds of at least 5, the result is `2h+3` long, begins with the input's first `h` characters and ends with its last `h` |
| Truncation.TruncateDefault | src/lib/index.ts:1-5 | with the default bound of 20, strings of up to 20 code points are kept, and longer ones become their first 8 and last 8 code points around `...`, 19 in all |
| Truncation.TruncateMiddleOverlong | src/lib/index.ts:3-4 | with bound 3 or 4 the result is `...` followed by the whole input, which is longer than the input |
| Truncation.TruncateMiddleOverlongExample | src/lib/index.ts:1-5 | `truncateMiddle("abcdef", 4)` is `"...abcdef"` |
| Truncation.TruncateMiddleBounded | src/lib/index.ts:1-5 | corrected version: for every bound of at least 3 the result fits the bound |
| Truncation.BoundedAgreesFromFive | src/lib/index.ts:3-4 | the correction changes nothing for bounds of 5 and above |
| CoolrState.Init | src/lib/coolr-state.svelte.ts:13-25 | the initial state lists only `#_` and selects it; it has no unread marks, timelines or profiles, no operator key and no relay, the tab counts as active, and the invariant holds |
| CoolrState.Register | src/lib/coolr-state.svelte.ts:410-412 | registering keeps the old list as a prefix, appends the channel only if absent, and keeps the list duplicate-free |
| MessageStore.IsDuplicateIn | src/lib/coolr-state.svelte.ts:428-432 | a relay event is a duplicate exactly when its channel already holds an entry with the same id; system entries are never duplicates |
| Seqs.Newest | src/lib/coolr-state.svelte.ts:437-438 | the trimmed timeline is the suffix of length min(n, length): the newest entries are kept |
| MessageStore.StoreEntry | src/lib/coolr-state.svelte.ts:414-443 | a relay event whose id is already in the channel changes no timeline; otherwise the channel keeps the newest min(500, n+1) entries of its old timeline plus the new entry, the new entry last, and no other timeline changes |
| MessageStore.MarkUnread | src/lib/coolr-state.svelte.ts:415-426 | the alert fires and the channel is appended to the unread list iff it is not selected or the tab is hidden, and it is not already unread |
| MessageStore.AddMessage | src/lib/coolr-state.svelte.ts:409-444 | registration, the unread/alert rule and the timeline update all happen together, and no other part of the state changes |
| MessageStore.AddMessageStores | src/lib/coolr-state.svelte.ts:409-444 | afterwards the channel is listed, its timeline holds the entry's id, and every other timeline is unchanged |
| MessageStore.AddMessagePreservesInv | src/lib/coolr-state.svelte.ts:409-444 | adding keeps the state invariant, including the 500 cap and duplicate-free channel and unread lists |
| MessageStore.AddMessageIdempotent | src/lib/coolr-state.svelte.ts:428-432 | adding a second relay event with the same id as the first, whatever its other fields, gives the same state as adding the first alone, with no second alert |
| MessageStore.DuplicateStillMarksUnread | src/lib/coolr-state.svelte.ts:410-432 | a dropped duplicate still marks an unselected channel unread and fires the alert |
| MessageStore.UnreadOnce | src/lib/coolr-state.svelte.ts:416-426 | a second entry for the same channel never adds a second unread mark or alert |
| MessageStore.AddAllKeepsNewest | src/lib/coolr-state.svelte.ts:434-443 | after appending a series of entries with no repeated ids, the channel holds exactly the newest 500 of old plus new, so the oldest are evicted first |
| Channels.ClearEmptyChannels | src/lib/coolr-state.svelte.ts:467-478 | exactly the listed channels with an absent or empty timeline leave the list and the map, the rest keep their order, and unread marks are untouched |
| Channels.ClearEmptyPreservesInv | src/lib/coolr-state.svelte.ts:467-478 | tidying keeps the state invariant: an unread channel is never empty, so it is never removed |
| Channels.ClearEmptyIdempotent | src/lib/coolr-state.svelte.ts:467-478 | tidying twice equals tidying once |
| Channels.ClearEmptyDropsDefault | src/lib/coolr-state.svelte.ts:467-478 | in the initial state tidying removes `#_`, leaving no channels |
| Channels.ChangeChannel | src/lib/coolr-state.svelte.ts:480-498 | choosing the selected channel does nothing; the input is rejected exactly when it differs from the selection and is invalid once its `#` characters are removed, and then the state is unchanged; otherwise `#` + name is registered, selected and removed from the unread list, and nothing else changes |
| Seqs.Without | src/lib/coolr-state.svelte.ts:498 | removing a channel from the unread list keeps every other entry, in order, and keeps the list free of duplicates |
| Channels.ChangeChannelPreservesInv | src/lib/coolr-state.svelte.ts:480-498 | changing channel keeps the state invariant |
| Channels.ChangeChannelIdempotent | src/lib/coolr-state.svelte.ts:480-498 | choosing the same input twice has no further effect |
| Channels.BroadcastChannelNotSelectable | src/lib/coolr-state.svelte.ts:484-489 | for every name, typing `#bc_` + name never selects anything and leaves the state unchanged |
| Profiles.Overlay | src/lib/coolr-state.svelte.ts:380 | spreading the new profile over the current one keeps the current NIP-05 id only when the new profile carries none of its own; all other fields come from the new profile |
| Profiles.MergeMetadata | src/lib/coolr-state.svelte.ts:356-403 | unparseable or falsy content changes nothing; otherwise the author's entry takes the new name (even none) and keeps its `verified` flag (false when new); `nip05` is replaced only by a non-empty value; other authors are untouched |
| Profiles.MergeKeepsVerified | src/lib/coolr-state.svelte.ts:377-380 | no metadata merge turns a verified profile unverified |
| Profiles.MergeIdempotent | src/lib/coolr-state.svelte.ts:356-403 | applying the same metadata twice equals applying it once |
| Profiles.MergeCommutes | src/lib/coolr-state.svelte.ts:356-403 | metadata of two different authors gives the same registry in either order |
| Profiles.MergeClearsName | src/lib/coolr-state.svelte.ts:369-373 | metadata without a name erases the recorded name |
| Classifier.FindTag | src/lib/coolr-state.svelte.ts:231 | `tags.find` returns the first tag with the given name, or nothing when no tag has it |
| Classifier.TagValue | src/lib/coolr-state.svelte.ts:232 | a missing tag, or a tag without a value, reads as the empty name; otherwise the tag's value |
| Classifier.Enrich | src/lib/coolr-state.svelte.ts:227-238 | an accepted event gets the receipt time, the active relay and its channel; its id, author, kind, tags, content and signature are kept |
| Classifier.BroadcastName | src/lib/coolr-state.svelte.ts:296 | the broadcast display name is the nick, `#`, and the last four characters of the key (the whole key when shorter); a missing nick reads as `undefined` |
| Classifier.Classify | src/lib/coolr-state.svelte.ts:226-306 | kind 23333 is accepted iff its first `d` tag value is valid, into `#` + value; kind 20000 iff it has `g` and `n` tags and a valid `g` value, into `#bc_` + value, with a profile overwrite iff the author is not the operator; other kinds are dropped; accepted events carry the receipt time, the relay and the channel |
| Classifier.OnEvent | src/lib/coolr-state.svelte.ts:226-306 | a dropped event changes nothing; an accepted one registers its channel, is stored there as the timeline update of the add-message operation prescribes, and triggers its unread mark and alert; the selection, operator key, relay and tab state are kept; no other timeline or other author's profile changes; and the author's profile takes the overwrite when there is one |
| Classifier.SameClassification | src/lib/coolr-state.svelte.ts:227-240 | the receipt time changes neither whether an event is accepted, nor its channel or profile overwrite; the stamped copy keeps the event's id |
| Classifier.DeliverTwice | src/lib/coolr-state.svelte.ts:240-301 | storing a second copy of an accepted event, with the same id, channel and profile overwrite, changes nothing and raises no alert |
| Classifier.OnEventRedelivered | src/lib/coolr-state.svelte.ts:226-306 | a relay delivering the same event again, at any later receipt time, leaves the state as it was after the first delivery and raises no alert |
| Classifier.OnEventPreservesInv | src/lib/coolr-state.svelte.ts:226-306 | handling any relay event keeps the state invariant |
| Classifier.AcceptedChannelShape | src/lib/coolr-state.svelte.ts:232-234 | every channel an event is stored in is `#` or `#bc_` followed by a valid name |
| Classifier.InvalidChatDropped | src/lib/coolr-state.svelte.ts:229-241 | a chat event with an invalid `d` value stores nothing, adds no channel and fires no alert |
| Classifier.MissingDTagDropped | src/lib/coolr-state.svelte.ts:231-232 | a chat event without a `d` tag is dropped, since the empty name is invalid |
| Classifier.BroadcastRegressesVerification | src/lib/coolr-state.svelte.ts:292-299 | a kind-20000 event from a verified author leaves that author unverified and without a NIP-05 id |
| Classifier.ChatExample | src/lib/coolr-state.svelte.ts:229-240 | tag `["d","general"]` yields channel `#general`, the receipt time and the active relay |
| Classifier.BadChatNameExample | src/lib/coolr-state.svelte.ts:229-241 | tag `["d","bad!name"]` leaves the state unchanged |
| Classifier.BroadcastExample | src/lib/coolr-state.svelte.ts:271-299 | tags `["g","zone1"],["n","alice"]` yield channel `#bc_zone1` and the author name `alice#` + last four key characters |
| Subscriptions.EventAuthors | src/lib/coolr-state.svelte.ts:336-338 | the keys listed are exactly the authors of the relay events among the entries |
| Subscriptions.Flatten | src/lib/coolr-state.svelte.ts:334-335 | flattening keeps exactly the entries of all timelines |
| Subscriptions.Distinct | src/lib/coolr-state.svelte.ts:339 | each value appears once, nothing is lost, and values keep the order of their first occurrence |
| Subscriptions.MetadataAuthors | src/lib/coolr-state.svelte.ts:334-344 | the author list has no duplicates and contains exactly the authors of stored relay events, plus the operator's key when it is set |
| Subscriptions.SubscribeMetadata | src/lib/coolr-state.svelte.ts:346-353 | no subscription iff there is no operator key and no stored relay event; otherwise kind 0 from the metadata relay, the active relay and the fallback relay, for a non-empty author list |
| Subscriptions.AuthorsOfState | src/lib/coolr-state.svelte.ts:334-344 | over a state's timelines, an author is requested iff it wrote a stored relay event or is the operator |
| Subscriptions.OnClose | src/lib/coolr-state.svelte.ts:309-320 | a close leads to exactly one reconnect attempt after 5000 ms, unless a reason says this client closed the connection |

## Left out

- Persistence is not modelled: `loadCache`, `saveCache`, `clearAllSiteData` and the Dexie schema (src/lib/db.ts:29-41). They are I/O against IndexedDB and localStorage.
- The relay pool is not modelled: `SimplePool.subscribe`/`destroy`, the live subscription issued by `connectToRelay`, and the 5-second `setTimeout`. Only the reason-list decision (`Subscriptions.OnClose`) and the contents of the metadata request are kept.
- `verifyNip05` is not modelled. It is an HTTP lookup of `.well-known/nostr.json`, and its only state effect depends on the response.
- `login` is not modelled. It asks an external browser signer for the key.
- Mention detection is not modelled: the `nprofile` regex, `decodeNostrURI` and `npubEncode` are NIP-19 bech32 code in a foreign library. The mention notification it triggers is left out with it.
- `notify` and `notifyWithSound` are browser side effects. `MessageStore.AddMessage` reports whether `notifyWithSound` is called (`alert`). Whether a sound then plays depends on the user preference and the audio element, which are not modelled.
- `replaceState` and `alert` in `changeChannel`, the `visibilitychange` listener and the `browser` / `pool` guards are not modelled. `tabActive` is a field of the state.
- `formatDate`, `Date.now()` and `emoticonMap` are not modelled. `now` is a parameter.
- `JSON.parse` is not modelled: the parsed content is an `Option<Meta>`. None means it threw or was falsy. A non-object truthy result reads as `Meta(None, None)`.
- Timelines are a Dafny `map`, which has no key order. `Subscriptions.MetadataAuthors` therefore takes the timelines as a sequence, standing for `messages.values()` in the map's insertion order.
- JavaScript strings are UTF-16, and `length` and `slice` count code units. The model's strings count code points. This matches the regex, whose `u` flag also counts code points. `truncateMiddle` and `pubkey.slice(-4)` therefore agree with the source only on strings without surrogate pairs. Keys and npubs are ASCII.
- A JavaScript string may hold a lone surrogate; a Dafny `char` cannot.

## Findings

| source | as written | input that shows it | evidently intended | confidence | as-written member | corrected member |
|---|---|---|---|---|---|---|
| src/lib/index.ts:3-4 | for a bound of 3 or 4, `half` is 0 and `str.slice(-0)` returns the whole string | `truncateMiddle("abcdef", 4)` gives `"...abcdef"`, 9 characters for a bound of 4 | a zero-length tail is empty, so the result is `"..."` and fits the bound | medium, not executed | Truncation.TruncateMiddleOverlong | Truncation.TruncateMiddleBounded |
