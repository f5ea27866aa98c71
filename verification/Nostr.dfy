/** Events and filters, NIP-01. Times are Unix seconds. */
module Nostr {
  import opened Prelude

  type Tag = seq<string>

  datatype Event = Event(id: string, pubkey: string, createdAt: int, kind: int,
                         tags: seq<Tag>, content: string, sig: string)

  /** A nil slice or pointer of the Go struct is None, which is not the same as Some([]). */
  datatype Filter = Filter(ids: Option<seq<string>>, authors: Option<seq<string>>, kinds: Option<seq<int>>,
                           tags: map<string, seq<string>>, since: Option<int>, until: Option<int>, limit: int)

  const KIND_SET_METADATA := 0
  const KIND_TEXT_NOTE := 1
  const KIND_RECOMMEND_SERVER := 2
  const KIND_CONTACT_LIST := 3
  const KIND_DELETION := 5

  predicate Ephemeral(kind: int)
  {
    20000 <= kind < 30000
  }
}
