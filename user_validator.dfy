/** The checks in front of the user routes. */
module UserValidator {
  import opened Validation

  const UserIdTooShort := "User ID must be at least 6 characters long"
  const EmailRequired := "Valid email is required"
  const CreatorIdTooShort := "Creator ID must be at least 6 characters long"

  /** `validateCreateAccount`; `isEmail` is the library's e-mail predicate. */
  function ValidateCreateAccount(isEmail: string -> bool): seq<Check> {
    [MinLength("id", 6, UserIdTooShort), Satisfies("email", isEmail, EmailRequired)]
  }

  /** `validateGetUser`. */
  const ValidateGetUser := [MinLength("id", 6, UserIdTooShort)]

  /** `validateGetWorkspaces`. */
  const ValidateGetWorkspaces := [MinLength("creatorId", 6, CreatorIdTooShort)]

  /**
   * Account creation: a short id is rejected first, then an address the
   * e-mail predicate refuses; anything else goes on to the handler.
   */
  function CreateAccountDecision(fields: Fields, isEmail: string -> bool): (d: Decision)
    ensures d == if |FieldText(fields, "id")| < 6 then BadRequest(UserIdTooShort)
                 else if !isEmail(FieldText(fields, "email")) then BadRequest(EmailRequired)
                 else Next
  {
    var checks := ValidateCreateAccount(isEmail);
    ValidatedIsFirstFailure(checks, fields);
    IsRequestValidated(Errors(checks, fields))
  }

  /** A user lookup with an id shorter than 6 characters is rejected, and only then. */
  function GetUserDecision(fields: Fields): (d: Decision)
    ensures d == if |FieldText(fields, "id")| < 6 then BadRequest(UserIdTooShort) else Next
  {
    IsRequestValidated(Errors(ValidateGetUser, fields))
  }

  /** A workspace listing with a creator id shorter than 6 characters is rejected, and only then. */
  function GetWorkspacesDecision(fields: Fields): (d: Decision)
    ensures d == if |FieldText(fields, "creatorId")| < 6 then BadRequest(CreatorIdTooShort) else Next
  {
    IsRequestValidated(Errors(ValidateGetWorkspaces, fields))
  }
}
