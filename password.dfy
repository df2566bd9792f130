/**
  Password guard: bcrypt's `genSalt(10)`, `hash` and `compare`, as a stand-in value.
  A digest records the work factor, the salt and (abstractly) the password it was made from;
  nothing in the model reads a digest except `Compare`.
 */
module PasswordGuard {

  /** The work factor passed to `genSalt`. */
  const SaltRounds := 10

  datatype Digest = Digest(rounds: nat, salt: nat, preimage: string)

  /** `bcrypt.hash(password, salt)` with the salt drawn by `genSalt(10)`. */
  function Hash(password: string, salt: nat): (d: Digest)
    ensures d.rounds == SaltRounds && d.salt == salt
  {
    Digest(SaltRounds, salt, password)
  }

  /** `bcrypt.compare(password, digest)`. */
  function Compare(password: string, d: Digest): bool {
    d.preimage == password
  }

  /** A digest matches exactly the password it was made from, whatever the salt. */
  lemma CompareHash(password: string, candidate: string, salt: nat)
    ensures Compare(candidate, Hash(password, salt)) <==> candidate == password
  {
  }
}
