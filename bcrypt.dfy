/**
 * The password hasher (`bcrypt.hash` / `bcrypt.compare`), seen only through
 * its contract. bcrypt is salted, so hashing is not a function of the secret
 * alone: the salt it draws at random is a parameter here.
 */
module Bcrypt {

  /** A stored digest: the salt drawn by `hash` and the secret it was made from.
      Only `Compare` looks at the secret. */
  datatype Digest<T> = Digest(salt: nat, preimage: T)

  /** `bcrypt.compare(candidate, digest)`: true exactly for the secret that was hashed. */
  predicate Compare<T(==)>(candidate: T, d: Digest<T>) {
    candidate == d.preimage
  }

  /** `bcrypt.hash(secret, 10)` with the salt it happens to draw. */
  function Hash<T(==)>(secret: T, salt: nat): (d: Digest<T>)
    ensures Compare(secret, d)
    ensures d.salt == salt
  {
    Digest(salt, secret)
  }

  /** Two hashes of one secret differ when the salts do, yet both verify it;
      and a hash verifies no other candidate. */
  lemma HashVerifiesOnlyItsSecret<T>(secret: T, candidate: T, salt1: nat, salt2: nat)
    ensures salt1 != salt2 ==> Hash(secret, salt1) != Hash(secret, salt2)
    ensures Compare(candidate, Hash(secret, salt1)) <==> candidate == secret
  {
  }
}
