/** The checks in front of the workspace routes. */
module WorkspaceValidator {
  import opened Validation

  const NameTooShort := "Name must be at least 2 characters long"
  const CreatorIdTooShort := "Creator ID must be at least 6 characters long"
  const WorkspaceIdTooShort := "Workspace ID must be at least 6 characters long"
  const UserIdTooShort := "User ID must be at least 6 characters long"

  /** `validateCreateWorkspace`. */
  const ValidateCreateWorkspace := [MinLength("workspaceName", 2, NameTooShort), MinLength("userId", 6, CreatorIdTooShort)]

  /** `validateGetWorkspace`. */
  const ValidateGetWorkspace := [MinLength("workspaceId", 6, WorkspaceIdTooShort)]

  /** `validateGetVideos`. */
  const ValidateGetVideos := [MinLength("workspaceId", 6, WorkspaceIdTooShort)]

  /** `validateGetChannel`. */
  const ValidateGetChannel := [MinLength("workspaceId", 6, WorkspaceIdTooShort), MinLength("userId", 6, UserIdTooShort)]

  /** Workspace creation: a name under 2 characters is rejected first, then a user id under 6. */
  function CreateWorkspaceDecision(fields: Fields): (d: Decision)
    ensures d == if |FieldText(fields, "workspaceName")| < 2 then BadRequest(NameTooShort)
                 else if |FieldText(fields, "userId")| < 6 then BadRequest(CreatorIdTooShort)
                 else Next
  {
    var checks := ValidateCreateWorkspace;
    ValidatedIsFirstFailure(checks, fields);
    IsRequestValidated(Errors(checks, fields))
  }

  /** A workspace lookup with an id shorter than 6 characters is rejected, and only then. */
  function GetWorkspaceDecision(fields: Fields): (d: Decision)
    ensures d == if |FieldText(fields, "workspaceId")| < 6 then BadRequest(WorkspaceIdTooShort) else Next
  {
    IsRequestValidated(Errors(ValidateGetWorkspace, fields))
  }

  /** A workspace's video listing with an id shorter than 6 characters is rejected, and only then. */
  function GetVideosDecision(fields: Fields): (d: Decision)
    ensures d == if |FieldText(fields, "workspaceId")| < 6 then BadRequest(WorkspaceIdTooShort) else Next
  {
    IsRequestValidated(Errors(ValidateGetVideos, fields))
  }

  /** A channel request needs both ids at least 6 characters long; the workspace id is judged first. */
  function GetChannelDecision(fields: Fields): (d: Decision)
    ensures d == if |FieldText(fields, "workspaceId")| < 6 then BadRequest(WorkspaceIdTooShort)
                 else if |FieldText(fields, "userId")| < 6 then BadRequest(UserIdTooShort)
                 else Next
  {
    var checks := ValidateGetChannel;
    ValidatedIsFirstFailure(checks, fields);
    IsRequestValidated(Errors(checks, fields))
  }
}
