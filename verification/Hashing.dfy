// A streaming hash: an unspecified byte-at-a-time state machine. SHA-256 is one; nothing
// below depends on which.
module Hashing {

  datatype Hash<!S> = Hash(start: S, step: (S, char) -> S, sum: S -> string)

  /** hash.Hash.Write. */
  function Feed<S>(h: Hash<S>, s: S, data: string): S
    decreases |data|
  {
    if data == "" then s else h.step(Feed(h, s, data[..|data| - 1]), data[|data| - 1])
  }

  /** The digest of a whole text. */
  function Digest<S>(h: Hash<S>, data: string): string {
    h.sum(Feed(h, h.start, data))
  }

  /** Hashing piece by piece is hashing the concatenation. */
  lemma {:induction false} FeedConcat<S>(h: Hash<S>, s: S, a: string, b: string)
    ensures Feed(h, s, a + b) == Feed(h, Feed(h, s, a), b)
    decreases |b|
  {
    if b == "" {
      assert a + b == a;
    } else {
      assert (a + b)[..|a + b| - 1] == a + b[..|b| - 1];
      FeedConcat(h, s, a, b[..|b| - 1]);
    }
  }
}
