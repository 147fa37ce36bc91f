/** The record shapes of the message cache: signed relay events enriched with
    their channel and origin relay, locally synthesised system events, and the
    per-author profile. `Entry` is the explicit tagged union that replaces the
    source's `'pubkey' in msg` shape test. */
module Records {
  import opened Wrappers

  /** A tag is a list of strings whose first element is the tag's name. */
  type Tag = seq<string>

  /** A signed relay event (`MessageEvent`): the nostr event fields plus the two
      optional enrichment fields `relayUrl` and `channel`. */
  datatype Event = Event(
    id: string,
    pubkey: string,
    kind: int,
    createdAt: int,
    tags: seq<Tag>,
    content: string,
    sig: string,
    relayUrl: Option<string>,
    channel: Option<string>)

  datatype SystemType = Error | Info | Help

  /** A locally synthesised notice shown in a channel; it carries no author. */
  datatype SystemEvent = SystemEvent(
    id: string,
    channel: string,
    severity: SystemType,
    createdAt: int,
    content: string)

  /** One element of a channel's timeline. */
  datatype Entry = Msg(ev: Event) | Sys(sys: SystemEvent) {

    /** Both shapes carry an `id`. */
    function Id(): string {
      match this
      case Msg(e) => e.id
      case Sys(s) => s.id
    }
  }

  /** Cached profile metadata of one author. */
  datatype Profile = Profile(
    pubkey: string,
    verified: bool,
    nip05: Option<string>,
    name: Option<string>)
}
