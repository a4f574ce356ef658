/** Optional values and the failure kinds the services report. */
module Wrappers {

  /** A value that may be absent, as `java.util.Optional`. */
  datatype Option<+T> = None | Some(value: T)

  /** The field check a validation failure comes from. */
  datatype Check =
    | NameTooShort
    | CpfMalformed
    | EmailMalformed
    | LoginTooShort
    | PasswordTooShort
    | DescriptionTooShort
    | StartAfterEnd
    | StartInPast
    | ManagerMissing

  /** The natural key a conflict is about. */
  datatype Key = CpfTaken | LoginTaken | NameTaken

  /** The membership rule a policy failure comes from. */
  datatype Rule = AlreadyMember | TeamFull | NotMember

  /**
   * The conditions the services raise as an invalid-argument exception,
   * one constructor per kind of condition.
   */
  datatype Failure =
    | Validation(check: Check)
    | Conflict(key: Key)
    | NotFound
    | Policy(rule: Rule)

  /** The outcome of a service call: its return value, or the failure it raised. */
  datatype Result<+T> = Ok(value: T) | Err(failure: Failure)
}
