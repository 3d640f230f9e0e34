/** The constants and error codes of the Merkle tree library. */
module MerkleConfig {

  const HASH_LENGTH := 32
  const TREE_LEVELS := 20
  const MAX_ELEMS := 524288

  /** NullRead is for the use of a null pointer, which the code does not report. */
  datatype Status = Success | OutOfMemory | IllegalParam | IllegalState | RootMismatch | NullRead
}
