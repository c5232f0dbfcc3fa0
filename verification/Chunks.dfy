/** A stream of bytes that arrives in pieces. */
module Chunks {

  function Joined(chunks: seq<string>): string {
    if chunks == [] then "" else Joined(chunks[..|chunks| - 1]) + chunks[|chunks| - 1]
  }
}
