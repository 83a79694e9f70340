/** Password hashing, modelled symbolically. A bcrypt hash is a term that
    records what was hashed and with which salt; two hashes are equal only
    when both inputs and both salts are. This is the ideal, collision-free
    hash; bcrypt's cost factor and 72-byte truncation are not modelled. */
module Bcrypt {

  /** The random salt `bcrypt.hash` or `bcrypt.genSalt` draws. */
  type Salt = nat

  /** A value stored in a `password` field: the plaintext, or a hash of a
      value (a hash string is itself a string, so it can be hashed again). */
  datatype Secret = Plain(text: string) | Hashed(input: Secret, salt: Salt)

  /** `bcrypt.hash(value, salt)`. */
  function Hash(value: Secret, salt: Salt): Secret {
    Hashed(value, salt)
  }

  /** `bcrypt.compare(password, hash)`: rehashes the plaintext with the salt
      recorded in `hash` and compares. */
  predicate Compare(password: string, hash: Secret) {
    hash.Hashed? && Hash(Plain(password), hash.salt) == hash
  }

  /** A hash of a plaintext accepts that plaintext and no other. */
  lemma CompareHashOfPlain(password: string, other: string, salt: Salt)
    ensures Compare(other, Hash(Plain(password), salt)) <==> other == password
  {
  }

  /** A hash of a hash accepts no plaintext password. In this model the
      text of a hash is never itself a plaintext; bcrypt would accept the
      inner hash's own text, which no route stores or returns. */
  lemma CompareRejectsDoubleHash(password: string, inner: Secret, salt: Salt)
    requires inner.Hashed?
    ensures !Compare(password, Hash(inner, salt))
  {
  }
}
