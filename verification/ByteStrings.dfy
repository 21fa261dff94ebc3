/** Bytes, shared by the trie and by RLP. */
module ByteStrings {
  type Byte = b: nat | b < 256
}
