/** A branch's shared metadata record. */
module Metadata {
  import opened Wrappers

  datatype Meta = Meta(parent: Option<string>, revision: Option<string>, scope: Option<string>, lockReason: string,
      branchType: string)

  const EMPTY: Meta := Meta(None, None, None, "", "")

  type Store = map<string, Meta>

  /** The version of a record is its content; an absent record has a version of its own. */
  function Version(store: Store, b: string): Option<Meta> {
    if b in store then Some(store[b]) else None
  }

  /** An absent record reads as an empty one. */
  function Value(version: Option<Meta>): Meta {
    match version
    case Some(m) => m
    case None => EMPTY
  }
}
