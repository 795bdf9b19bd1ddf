/** What several parts of the case model share. */
module Common {

  datatype Option<+T> = None | Some(value: T)

  /** The artifact families evidence comes from. */
  datatype Family = Evtx | Mft | Prefetch | Registry

  /** The name adapters and parsers go by, and the one candidates are ordered by. */
  function FamilyName(f: Family): string {
    match f
    case Evtx => "evtx"
    case Mft => "mft"
    case Prefetch => "prefetch"
    case Registry => "registry"
  }
}
