/** The errors that reach a handler's `catch` block (their `err.message` is reported as `details`). */
module Faults {

  datatype Fault =
    | ValidationFailed       // a schema validator rejected the document
    | DuplicateKey           // a unique index (username, email or githubId) already holds the value
    | SecretMissing          // `jwt.sign` without a configured secret
    | HashArgumentsRequired  // `bcrypt.compare` against an account that has no password
}
