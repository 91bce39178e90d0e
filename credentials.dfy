/**
 * The credential hasher (bcryptjs) kept abstract. A digest is a value of its
 * own type, so a stored credential can never be a plaintext string; the model
 * treats hashing as injective and leaves out salts and the cost factor.
 */
module Credentials {
  datatype Digest = Bcrypt(image: string)

  /** `bcrypt.hash(password, 10)`. */
  function Hash(password: string): Digest
  {
    Bcrypt(password)
  }

  /**
   * `bcrypt.compare(attempt, digest)`: against the digest of a password it
   * accepts exactly that password; a mismatch is a plain `false`, never an error.
   */
  function Compare(attempt: string, digest: Digest): (ok: bool)
    ensures forall password :: digest == Hash(password) ==> (ok <==> attempt == password)
  {
    digest == Hash(attempt)
  }
}
