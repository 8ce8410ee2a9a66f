/** Value types shared by every model in the project. */
module Values {

  datatype Option<+T> = None | Some(value: T)

  /** A computation that may fail. Error texts are not modelled. */
  datatype Result<+T> = Ok(value: T) | Err

  /** A block of decoded bytes: pixels, entropy contexts, motion vectors or segment identifiers. */
  type Data = seq<int>

  /** Number of reference slots of an AV1 decoder. */
  const REF_FRAMES: nat := 8

  /** Number of references one inter frame selects. */
  const INTER_REFS: nat := 7

  /** Largest number of frame contexts in flight. */
  const MAX_CONTEXTS: nat := 8
}
