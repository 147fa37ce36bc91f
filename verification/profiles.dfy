/** The kind-0 metadata handler: merge an author's published name and NIP-05
    identifier into the profile registry. */
module Profiles {
  import opened Wrappers
  import opened Records

  /** The fields the handler reads from the parsed metadata JSON. */
  datatype Meta = Meta(name: Option<string>, nip05: Option<string>)

  /** JavaScript truthiness of an optional string: present and non-empty. */
  predicate Truthy(s: Option<string>) {
    s.Some? && s.value != ""
  }

  /** An object spread of `update` over `current`. `update` always carries its
      own `pubkey`, `verified` and `name`, so those three are taken from it even
      when its name is missing; it carries `nip05` only when `withNip05` holds,
      and otherwise the current identifier survives. */
  function Overlay(current: Profile, update: Profile, withNip05: bool): (r: Profile)
    ensures withNip05 ==> r == update
    ensures !withNip05 ==> r == update.(nip05 := current.nip05)
    ensures r.name == update.name && r.verified == update.verified
  {
    Profile(update.pubkey, update.verified,
            if withNip05 then update.nip05 else current.nip05,
            update.name)
  }

  /** Applies one metadata event of `pubkey` whose content parsed to `content`
      (None when the JSON did not parse or parsed to a falsy value). */
  function MergeMetadata(profiles: map<string, Profile>, pubkey: string, content: Option<Meta>)
    : (r: map<string, Profile>)
    ensures content.None? ==> r == profiles
    ensures content.Some? ==>
              && pubkey in r
              && (forall k :: k != pubkey ==> (k in r <==> k in profiles))
              && (forall k :: k != pubkey && k in profiles ==> r[k] == profiles[k])
              && r[pubkey].pubkey == pubkey
              && r[pubkey].name == content.value.name
              && r[pubkey].verified == (pubkey in profiles && profiles[pubkey].verified)
              && r[pubkey].nip05 == (if Truthy(content.value.nip05) then content.value.nip05
                                     else if pubkey in profiles then profiles[pubkey].nip05
                                     else None)
  {
    match content
    case None => profiles
    case Some(meta) =>
      var profile := Profile(pubkey, false, None, meta.name);
      if Truthy(meta.nip05) then
        var profile := profile.(nip05 := meta.nip05);
        if pubkey in profiles then
          var current := profiles[pubkey];
          profiles[pubkey := Overlay(current, profile.(verified := current.verified), true)]
        else
          profiles[pubkey := profile]
      else
        if pubkey in profiles then
          var current := profiles[pubkey];
          profiles[pubkey := Overlay(current, profile.(verified := current.verified), false)]
        else
          profiles[pubkey := profile]
  }

  /** A metadata refresh never withdraws verification. */
  lemma MergeKeepsVerified(profiles: map<string, Profile>, pubkey: string, content: Option<Meta>, k: string)
    requires k in profiles && profiles[k].verified
    ensures k in MergeMetadata(profiles, pubkey, content)
    ensures MergeMetadata(profiles, pubkey, content)[k].verified
  {
  }

  /** Receiving the same metadata event again changes nothing. */
  lemma MergeIdempotent(profiles: map<string, Profile>, pubkey: string, content: Option<Meta>)
    ensures var once := MergeMetadata(profiles, pubkey, content);
            MergeMetadata(once, pubkey, content) == once
  {
    var once := MergeMetadata(profiles, pubkey, content);
    var twice := MergeMetadata(once, pubkey, content);
    if content.Some? {
      assert twice[pubkey] == once[pubkey];
      assert forall k :: k in twice <==> k in once;
    }
  }

  /** Metadata of two different authors can be applied in either order. */
  lemma MergeCommutes(profiles: map<string, Profile>, a: string, ma: Option<Meta>, b: string, mb: Option<Meta>)
    requires a != b
    ensures MergeMetadata(MergeMetadata(profiles, a, ma), b, mb)
         == MergeMetadata(MergeMetadata(profiles, b, mb), a, ma)
  {
    var ab := MergeMetadata(MergeMetadata(profiles, a, ma), b, mb);
    var ba := MergeMetadata(MergeMetadata(profiles, b, mb), a, ma);
    assert forall k :: k in ab <==> k in ba;
    assert forall k :: k in ab ==> ab[k] == ba[k];
  }

  /** Metadata without a name erases the name already on record. */
  lemma MergeClearsName(profiles: map<string, Profile>, pubkey: string, nip05: Option<string>)
    requires pubkey in profiles && profiles[pubkey].name.Some?
    ensures MergeMetadata(profiles, pubkey, Some(Meta(None, nip05)))[pubkey].name == None
  {
  }
}
