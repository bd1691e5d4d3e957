/** End-user and admin accounts, and the password hash. The account models
    themselves (model/userModel.js, model/adminModel.js) are not part of this
    model; their shape is the one the controllers read and write. */
module Accounts {
  import opened Values

  /** A stored password hash. bcrypt is modelled as an injective tag: salts and
      cost are left out, and comparing is equality with the hash of the
      candidate. */
  datatype Digest = Digest(secret: string)

  function Hash(password: string): Digest {
    Digest(password)
  }

  /** `bcrypt.compare(password, digest)` */
  predicate Matches(password: string, digest: Digest) {
    digest == Hash(password)
  }

  /** `role` is None for a document stored without one. */
  datatype Account = Account(id: Id, email: string, password: Digest, role: Option<string>)

  const UserRole := "user"
  const UploaderRole := "uploader"
  const DeveloperRole := "developer"
}
