/** The checks in front of the video routes. */
module VideoValidator {
  import opened Validation

  const UserIdTooShort := "User ID must be at least 6 characters long"
  const WorkspaceIdTooShort := "Workspace ID must be at least 6 characters long"
  const StorageUrlInvalid := "Storage URL is not a valid URL"
  const VideoIdTooShort := "Video ID must be at least 6 characters long"

  /** `validateCreateVideo`; `isURL` is the library's URL predicate. */
  function ValidateCreateVideo(isURL: string -> bool): seq<Check> {
    [ MinLength("uploaderId", 6, UserIdTooShort),
      MinLength("workspaceId", 6, WorkspaceIdTooShort),
      Satisfies("storageUrl", isURL, StorageUrlInvalid) ]
  }

  /** `validateGetVideoData`. */
  const ValidateGetVideoData := [MinLength("videoId", 6, VideoIdTooShort)]

  /** `validateGetVideos`. */
  const ValidateGetVideos := [MinLength("userId", 6, UserIdTooShort)]

  /**
   * Video creation: a short uploader id is rejected first, then a short
   * workspace id, then a storage URL the URL predicate refuses.
   */
  function CreateVideoDecision(fields: Fields, isURL: string -> bool): (d: Decision)
    ensures d == if |FieldText(fields, "uploaderId")| < 6 then BadRequest(UserIdTooShort)
                 else if |FieldText(fields, "workspaceId")| < 6 then BadRequest(WorkspaceIdTooShort)
                 else if !isURL(FieldText(fields, "storageUrl")) then BadRequest(StorageUrlInvalid)
                 else Next
  {
    var checks := ValidateCreateVideo(isURL);
    ValidatedIsFirstFailure(checks, fields);
    assert checks[1..][1..] == checks[2..];
    assert FirstFailure(checks[2..], fields) == if Passes(checks[2], fields) then Next else BadRequest(StorageUrlInvalid);
    IsRequestValidated(Errors(checks, fields))
  }

  /** A video lookup with an id shorter than 6 characters is rejected, and only then. */
  function GetVideoDataDecision(fields: Fields): (d: Decision)
    ensures d == if |FieldText(fields, "videoId")| < 6 then BadRequest(VideoIdTooShort) else Next
  {
    IsRequestValidated(Errors(ValidateGetVideoData, fields))
  }

  /** A videos request with a user id shorter than 6 characters is rejected, and only then. */
  function GetVideosDecision(fields: Fields): (d: Decision)
    ensures d == if |FieldText(fields, "userId")| < 6 then BadRequest(UserIdTooShort) else Next
  {
    IsRequestValidated(Errors(ValidateGetVideos, fields))
  }
}
