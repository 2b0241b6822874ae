/** Password hashing and signed tokens, the two services the auth routes
    take from bcrypt and jsonwebtoken. */
module Credentials {

  /** The cost factor the register handler passes to `genSalt`. */
  const BcryptCost := 12

  /** A stored password hash: the cost, the salt and the digest. */
  datatype PasswordHash = Bcrypt(cost: nat, salt: nat, digest: string)

  /** `bcrypt.hash(password, salt)` with a salt from `genSalt(12)`,
      idealised as collision-free: the digest determines the password (the
      model's digest is the password itself; irreversibility plays no part
      in any property stated here). */
  function Hash(password: string, salt: nat): (hash: PasswordHash)
    ensures hash.cost == BcryptCost && hash.salt == salt
    ensures Compare(password, hash)
  {
    Bcrypt(BcryptCost, salt, password)
  }

  /** `bcrypt.compare`: the stored hash carries its own cost and salt; the
      candidate is hashed with both and the digests are compared. */
  predicate Compare(password: string, hash: PasswordHash): (ok: bool)
    ensures ok <==> Bcrypt(hash.cost, hash.salt, password) == hash
  {
    hash.digest == password
  }

  /** A hash accepts exactly the password it was made from. */
  lemma CompareHash(candidate: string, password: string, salt: nat)
    ensures Compare(candidate, Hash(password, salt)) <==> candidate == password
  {
  }

  /** Whatever cost a stored hash was made with, it accepts its password
      and rejects every other one. */
  lemma CompareAnyCost(candidate: string, password: string, cost: nat, salt: nat)
    ensures Compare(candidate, Bcrypt(cost, salt, password)) <==> candidate == password
  {
  }

  /** The user fields a response and a token may carry: never the hash. */
  datatype PublicUser = PublicUser(id: int, username: string, email: string)

  /** `jwt.sign(payload, secret, { expiresIn })`; the secret and the expiry
      are configuration and are not modelled. */
  datatype Token = Jwt(payload: PublicUser)
}
