/** The password-hashing and token primitives the services call. Their
    algorithms are not part of the model: a `Primitives` value is any choice
    of the four functions, and the only fact the model relies on is `Sound`. */
module Crypto {
  import opened Wrappers

  /** The random salt a hash call draws. */
  type Salt = nat

  /** The token payload `{ id, email, role }`. */
  datatype Claims = Claims(id: nat, email: string, role: string)

  datatype Primitives = Primitives(
    hash: (string, Salt) -> string,     // bcrypt.hash(password, salt)
    compare: (string, string) -> bool,  // bcrypt.compare(candidate, hash)
    sign: Claims -> string,             // jwt.sign(payload, secret, { expiresIn })
    verify: string -> Option<Claims>)   // jwt.verify(token, secret); None when it throws

  /** A password always matches its own hash, whatever the salt. */
  ghost predicate Sound(c: Primitives) {
    forall p, salt :: c.compare(p, c.hash(p, salt))
  }
}
