/**
 * The video handlers: submission of a video to a workspace (insert, then
 * link into the workspace's pending list), lookup, the not-found gate in
 * front of the publishing platform, and the file-presence branching of the
 * multipart upload handler. `JSON.parse` and the platform's upload call are
 * parameters: the model does not know what they answer.
 */
module VideoController {
  import opened Common
  import opened Store

  const VideoNotFound := "Video not found"
  const UserOrVideoNotFound := "User or Video not found"

  /**
   * `String(x)` on the optional thumbnail filename: an absent thumbnail
   * becomes the text "undefined".
   */
  function StringOf(thumbnail: Option<string>): (r: string)
    ensures thumbnail.Some? ==> r == thumbnail.value
    ensures thumbnail.None? ==> r == "undefined"
  {
    match thumbnail
    case Some(name) => name
    case None => "undefined"
  }

  /** The submission gate: uploader and workspace exist and the uploader is a creator or an editor. */
  predicate CanSubmitVideo(users: map<Id, UserDoc>, workspaces: map<Id, WorkspaceDoc>, uploaderId: Id, workspaceId: Id)
    ensures CanSubmitVideo(users, workspaces, uploaderId, workspaceId) ==> uploaderId in users && workspaceId in workspaces
    ensures uploaderId in users && workspaceId in workspaces && users[uploaderId].roles.editor ==>
              CanSubmitVideo(users, workspaces, uploaderId, workspaceId)
  {
    && uploaderId in users
    && workspaceId in workspaces
    && (users[uploaderId].roles.creator || users[uploaderId].roles.editor)
  }

  /**
   * Account creation grants every user the editor role, so in a consistent
   * store the role test never refuses: any existing user may submit to any
   * existing workspace, whether or not listed among its `editors`.
   */
  lemma SubmitGateIsExistence(db: Database, uploaderId: Id, workspaceId: Id)
    requires db.Valid()
    ensures CanSubmitVideo(db.users, db.workspaces, uploaderId, workspaceId) <==>
              uploaderId in db.users && workspaceId in db.workspaces
  {
    if uploaderId in db.users {
      assert db.users[uploaderId].roles.editor;
    }
  }

  /** The video document a submission stores. */
  function NewVideoDoc(uploaderId: Id, workspaceId: Id, metadata: Json, videoFileName: string, thumbnail: Option<string>): VideoDoc {
    VideoDoc(uploaderId, workspaceId, metadata, videoFileName, StringOf(thumbnail))
  }

  /** The workspace once the new video id is array-unioned into `pending_videos`. */
  function LinkPending(w: WorkspaceDoc, videoId: Id): WorkspaceDoc {
    w.(pendingVideos := ArrayUnion(w.pendingVideos, videoId))
  }

  /**
   * Linking a video into a workspace lists it as pending, keeps every earlier
   * pending entry in place, lists a new id exactly once, leaves `creator`,
   * `name`, `editors` and `uploaded_videos` alone, and is idempotent.
   */
  lemma LinkPendingKeeps(w: WorkspaceDoc, videoId: Id)
    ensures var w' := LinkPending(w, videoId);
      && videoId in w'.pendingVideos
      && w.pendingVideos <= w'.pendingVideos
      && w' == w.(pendingVideos := w'.pendingVideos)
      && w'.uploadedVideos == w.uploadedVideos && w'.editors == w.editors && w'.creator == w.creator
      && Count(w'.pendingVideos, videoId) == (if videoId in w.pendingVideos then Count(w.pendingVideos, videoId) else 1)
      && LinkPending(w', videoId) == w'
  {
    ArrayUnionCount(w.pendingVideos, videoId);
  }

  /**
   * `createVideo`: fails with nothing written when the gate refuses, when the
   * metadata does not parse, or when the store rejects the insert; otherwise
   * inserts one new video under a fresh id and then links that id into the
   * workspace's `pending_videos`. When the store rejects that second write
   * the call fails although the video document stays: failure does not mean
   * nothing was written. No user document is ever touched. `created` is the
   * id of the video this call inserted, if any.
   */
  method CreateVideo(db: Database, uploaderId: Id, workspaceId: Id, videoFileName: string, metadata: string,
                     thumbnail: Option<string>, parseJson: string -> Option<Json>, fault: StoreFault)
    returns (success: bool, ghost created: Option<Id>)
    modifies db
    ensures db.users == old(db.users)
    ensures success <==> CanSubmitVideo(old(db.users), old(db.workspaces), uploaderId, workspaceId)
                         && parseJson(metadata).Some? && fault == NoFault
    ensures created.None? <==> !CanSubmitVideo(old(db.users), old(db.workspaces), uploaderId, workspaceId)
                               || parseJson(metadata).None? || fault == FirstWriteFails
    ensures created.None? ==> db.videos == old(db.videos) && db.workspaces == old(db.workspaces)
    ensures created.Some? ==>
              && created.value !in old(db.videos)
              && db.videos == old(db.videos)[created.value :=
                   NewVideoDoc(uploaderId, workspaceId, parseJson(metadata).value, videoFileName, thumbnail)]
              && db.workspaces == if success
                                  then old(db.workspaces)[workspaceId := LinkPending(old(db.workspaces)[workspaceId], created.value)]
                                  else old(db.workspaces)
    ensures success && old(db.Valid()) ==> Count(db.workspaces[workspaceId].pendingVideos, created.value) == 1
    ensures old(db.Valid()) ==> db.Valid()
  {
    created := None;
    ghost var validBefore := db.Valid();
    var user := db.GetUserById(uploaderId);
    var workspace := db.GetWorkspaceById(workspaceId);
    if user.None? || workspace.None? || !(user.value.roles.creator || user.value.roles.editor) {
      return false, created;
    }
    var parsed := parseJson(metadata);
    if parsed.None? || fault == FirstWriteFails {
      return false, created;
    }
    var videoId := db.CreateVideo(NewVideoDoc(uploaderId, workspaceId, parsed.value, videoFileName, thumbnail));
    created := Some(videoId);
    if validBefore {
      SubmissionKeepsConsistent(old(db.users), old(db.workspaces), old(db.videos), workspaceId, videoId, db.videos[videoId]);
    }
    if fault == SecondWriteFails {
      return false, created;
    }
    var ok := db.UnionPendingVideo(workspaceId, videoId);
    assert ok;
    success := true;
  }

  /**
   * The consistency step of a submission: inserting a fresh video that
   * belongs to `workspaceId` keeps the store consistent, and so does then
   * linking it into that workspace's pending list, where it is listed once.
   */
  lemma SubmissionKeepsConsistent(users: map<Id, UserDoc>, workspaces: map<Id, WorkspaceDoc>, videos: map<Id, VideoDoc>,
                                  workspaceId: Id, videoId: Id, doc: VideoDoc)
    requires Consistent(users, workspaces, videos)
    requires workspaceId in workspaces && videoId !in videos && doc.workspaceId == workspaceId
    ensures Consistent(users, workspaces, videos[videoId := doc])
    ensures var linked := workspaces[workspaceId := LinkPending(workspaces[workspaceId], videoId)];
      && Consistent(users, linked, videos[videoId := doc])
      && Count(linked[workspaceId].pendingVideos, videoId) == 1
  {
    var videos' := videos[videoId := doc];
    var linked := workspaces[workspaceId := LinkPending(workspaces[workspaceId], videoId)];
    forall k | k in workspaces
      ensures WorkspaceLinked(k, workspaces[k], videos')
      ensures WorkspaceLinked(k, linked[k], videos')
    {
      assert WorkspaceLinked(k, workspaces[k], videos);
      if k == workspaceId {
        assert videoId !in workspaces[k].pendingVideos;
        ArrayUnionNoDuplicates(workspaces[k].pendingVideos, videoId);
      }
    }
    var w := workspaces[workspaceId];
    assert videoId !in w.pendingVideos by {
      assert WorkspaceLinked(workspaceId, w, videos);
    }
    ArrayUnionCount(w.pendingVideos, videoId);
    forall k | k in users
      ensures AllIn(users[k].workspaces, linked)
    {
      assert AllIn(users[k].workspaces, workspaces);
    }
  }

  /** `getVideoData`: the stored document, or 404. */
  function GetVideoData(db: Database, videoId: Id): (r: Reply<VideoDoc>)
    reads db
    ensures r.status == 200 <==> videoId in db.videos
    ensures videoId in db.videos ==> r.body == Data(db.videos[videoId])
    ensures videoId !in db.videos ==> r == Reply(404, Message(VideoNotFound))
  {
    match db.GetVideoById(videoId)
    case Some(v) => Reply(200, Data(v))
    case None => Reply(404, Message(VideoNotFound))
  }

  /** The platform upload `uploadToYT` issues: the fixed local path, the owner's tokens, the video's metadata. */
  datatype UploadCall = UploadCall(localPath: string, accessToken: Option<string>, refreshToken: Option<string>, metadata: Json)

  /**
   * `uploadToYT`: answers 404 before any platform call when the owner or the
   * video is missing; otherwise issues exactly one upload with the owner's
   * tokens and the video's metadata and answers 200 with what the platform
   * returned (under the key `data`), or 500 when the platform call throws. Nothing in the store
   * changes: no id moves from `pending_videos` to `uploaded_videos`.
   * `issued` is the platform call made, if any; `upload` is the platform.
   */
  method UploadToYT(db: Database, videoId: Id, ownerId: Id, upload: UploadCall -> Option<Json>)
    returns (reply: Reply<Json>, issued: Option<UploadCall>)
    ensures ownerId !in db.users || videoId !in db.videos ==>
              reply == Reply(404, Message(UserOrVideoNotFound)) && issued == None
    ensures ownerId in db.users && videoId in db.videos ==>
              && issued == Some(UploadCall("custompath", db.users[ownerId].accessToken, db.users[ownerId].refreshToken,
                                           db.videos[videoId].metadata))
              && reply == match upload(issued.value)
                          case Some(data) => Reply(200, Keyed("data", data))
                          case None => Reply(500, Error(GenericError))
  {
    var video := db.GetVideoById(videoId);
    var user := db.GetUserById(ownerId);
    if user.None? || video.None? {
      return Reply(404, Message(UserOrVideoNotFound)), None;
    }
    var call := UploadCall("custompath", user.value.accessToken, user.value.refreshToken, video.value.metadata);
    issued := Some(call);
    var data := upload(call);
    match data
    case Some(d) => reply := Reply(200, Keyed("data", d));
    case None => reply := Reply(500, Error(GenericError));
  }

  /** How the multipart parser finished. */
  datatype ParseError = NoParseError | MulterError | OtherError

  const FileUploadError := "File upload error"
  const InternalError := "Internal server error"
  const VideoFileRequired := "Video file is required"
  const UploadSucceeded := "Uploaded successfully & Video metadata uploaded successfully"
  const UploadFailed := "An error occurred during setting file to firestore"

  /**
   * `uploadVideo` after the multipart parser ran: a parser error answers 400
   * (a multer error) or 500, and a request without a video file answers 400,
   * each with nothing written; otherwise `createVideo` runs with the first
   * video file's name and the first thumbnail's name (absent when no
   * thumbnail field arrived) and the reply is 200 exactly when it succeeded:
   * the new video is then stored and linked into `pending_videos`, while a
   * 500 after a stored video leaves that video unlinked.
   * The parser names the files; a field it creates holds at least one file.
   */
  method UploadVideo(db: Database, parseError: ParseError, uploaderId: Id, workspaceId: Id, metadata: string,
                     videoFiles: Option<seq<string>>, thumbnailFiles: Option<seq<string>>,
                     parseJson: string -> Option<Json>, fault: StoreFault)
    returns (reply: Reply<()>, ghost created: Option<Id>)
    requires thumbnailFiles.Some? ==> |thumbnailFiles.value| > 0
    modifies db
    ensures db.users == old(db.users)
    ensures parseError == MulterError ==> reply == Reply(400, Error(FileUploadError))
    ensures parseError == OtherError ==> reply == Reply(500, Error(InternalError))
    ensures parseError == NoParseError && (videoFiles.None? || videoFiles.value == []) ==>
              reply == Reply(400, Error(VideoFileRequired))
    ensures reply.status == 400 || parseError == OtherError ==>
              created == None && db.videos == old(db.videos) && db.workspaces == old(db.workspaces)
    ensures parseError == NoParseError && videoFiles.Some? && videoFiles.value != [] ==>
              var thumbnail := if thumbnailFiles.Some? then Some(thumbnailFiles.value[0]) else None;
              && (reply == Reply(200, Message(UploadSucceeded)) || reply == Reply(500, Message(UploadFailed)))
              && (reply.status == 200 <==> CanSubmitVideo(old(db.users), old(db.workspaces), uploaderId, workspaceId)
                                           && parseJson(metadata).Some? && fault == NoFault)
              && (created.Some? <==> CanSubmitVideo(old(db.users), old(db.workspaces), uploaderId, workspaceId)
                                     && parseJson(metadata).Some? && fault != FirstWriteFails)
              && (created.Some? ==>
                    db.workspaces == if reply.status == 200
                                     then old(db.workspaces)[workspaceId := LinkPending(old(db.workspaces)[workspaceId], created.value)]
                                     else old(db.workspaces))
              && (reply.status == 200 && old(db.Valid()) ==>
                    created.Some? && Count(db.workspaces[workspaceId].pendingVideos, created.value) == 1)
              && (created.Some? ==>
                    && parseJson(metadata).Some?
                    && created.value !in old(db.videos)
                    && db.videos == old(db.videos)[created.value :=
                         NewVideoDoc(uploaderId, workspaceId, parseJson(metadata).value, videoFiles.value[0], thumbnail)])
              && (created.None? ==> db.videos == old(db.videos) && db.workspaces == old(db.workspaces))
    ensures old(db.Valid()) ==> db.Valid()
  {
    created := None;
    if parseError == MulterError {
      return Reply(400, Error(FileUploadError)), created;
    }
    if parseError == OtherError {
      return Reply(500, Error(InternalError)), created;
    }
    if videoFiles.None? || |videoFiles.value| == 0 {
      return Reply(400, Error(VideoFileRequired)), created;
    }
    var success;
    if thumbnailFiles.Some? {
      success, created := CreateVideo(db, uploaderId, workspaceId, videoFiles.value[0], metadata,
                                      Some(thumbnailFiles.value[0]), parseJson, fault);
    } else {
      success, created := CreateVideo(db, uploaderId, workspaceId, videoFiles.value[0], metadata,
                                      None, parseJson, fault);
    }
    if success {
      reply := Reply(200, Message(UploadSucceeded));
    } else {
      reply := Reply(500, Message(UploadFailed));
    }
  }
}
