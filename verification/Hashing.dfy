/**
 * SHA-256 of the UTF-8 bytes, as a hexadecimal string, is an unknown function from texts to texts.
 * Every result is proved for every such function. What a collision-free hash would give is
 * stated as an alternative: the property holds, or two of the values that were hashed have different
 * encodings with the same hash.
 */
module Hashing {
  import opened Json

  type Hasher = string -> string

  /** `_hash(value)` */
  function Digest(h: Hasher, v: Value): string {
    h(Encode(v))
  }

  /** Two values with different encodings whose digests are nevertheless the same. */
  ghost predicate Collides(h: Hasher, v: Value, w: Value) {
    Encode(v) != Encode(w) && Digest(h, v) == Digest(h, w)
  }

  /** A value hashed on one side collides with a value hashed on the other. */
  ghost predicate Collision(h: Hasher, xs: set<Value>, ys: set<Value>) {
    exists v, w :: v in xs && w in ys && Collides(h, v, w)
  }
}
