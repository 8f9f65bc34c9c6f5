/**
 * The workspace handlers: creation by a user holding the creator role,
 * lookup, and the listing of a workspace's pending and uploaded videos.
 */
module WorkspaceController {
  import opened Common
  import opened Store
  import Listing

  const PermissionDenied := "User does not have the necessary permissions."
  const WorkspaceCreated := "Workspace created successfully."
  const WorkspaceNotFound := "Workspace not found"

  /** The only gate on workspace creation: the user exists and holds `roles.creator`. */
  predicate CanCreateWorkspace(users: map<Id, UserDoc>, userId: Id)
    ensures CanCreateWorkspace(users, userId) ==> userId in users
    ensures userId !in users ==> !CanCreateWorkspace(users, userId)
  {
    userId in users && users[userId].roles.creator
  }

  /** A new workspace: made by `userId`, with no editors and no videos. */
  function NewWorkspaceDoc(userId: Id, name: string): WorkspaceDoc {
    WorkspaceDoc(creator := userId, name := name, editors := [], pendingVideos := [], uploadedVideos := [])
  }

  /** The creator's document once the new workspace id is array-unioned into it. */
  function LinkWorkspace(u: UserDoc, workspaceId: Id): UserDoc {
    u.(workspaces := ArrayUnion(u.workspaces, workspaceId))
  }

  /**
   * The creator's link to a new workspace: the id is listed, earlier entries
   * are kept in place, nothing but `workspaces` changes, a fresh id is listed
   * exactly once and an id already listed is not listed again.
   */
  lemma LinkWorkspaceKeeps(u: UserDoc, workspaceId: Id)
    ensures var u' := LinkWorkspace(u, workspaceId);
      && workspaceId in u'.workspaces
      && u.workspaces <= u'.workspaces
      && u' == u.(workspaces := u'.workspaces)
      && Count(u'.workspaces, workspaceId) == (if workspaceId in u.workspaces then Count(u.workspaces, workspaceId) else 1)
      && LinkWorkspace(u', workspaceId) == u'
  {
    ArrayUnionCount(u.workspaces, workspaceId);
  }

  /**
   * `createWorkspace`: 403 with nothing written unless the user may create
   * workspaces; otherwise adds the new workspace under a fresh id, then
   * array-unions that id into the creator's `workspaces` and answers 200 with
   * it. A rejected first write leaves the store as it was; a rejected second
   * write answers 500 and leaves the new workspace unlinked. `created` is the
   * id of the workspace this call added, if any.
   */
  method CreateWorkspace(db: Database, userId: Id, workspaceName: string, fault: StoreFault)
    returns (reply: Reply<()>, ghost created: Option<Id>)
    modifies db
    ensures db.videos == old(db.videos)
    ensures !CanCreateWorkspace(old(db.users), userId) ==>
              && reply == Reply(403, Error(PermissionDenied)) && created == None
              && db.users == old(db.users) && db.workspaces == old(db.workspaces)
    ensures CanCreateWorkspace(old(db.users), userId) && fault == FirstWriteFails ==>
              && reply == Reply(500, Error(GenericError)) && created == None
              && db.users == old(db.users) && db.workspaces == old(db.workspaces)
    ensures CanCreateWorkspace(old(db.users), userId) && fault != FirstWriteFails ==>
              && created.Some? && created.value !in old(db.workspaces)
              && db.workspaces == old(db.workspaces)[created.value := NewWorkspaceDoc(userId, workspaceName)]
    ensures CanCreateWorkspace(old(db.users), userId) && fault == SecondWriteFails ==>
              reply == Reply(500, Error(GenericError)) && db.users == old(db.users)
    ensures CanCreateWorkspace(old(db.users), userId) && fault == NoFault ==>
              && reply == Reply(200, IdMessage(created.value, WorkspaceCreated))
              && db.users == old(db.users)[userId := LinkWorkspace(old(db.users)[userId], created.value)]
    ensures old(db.Valid()) ==> db.Valid()
  {
    created := None;
    ghost var validBefore := db.Valid();
    var user := db.GetUserById(userId);
    if !(user.Some? && user.value.roles.creator) {
      return Reply(403, Error(PermissionDenied)), created;
    }
    if fault == FirstWriteFails {
      return Reply(500, Error(GenericError)), created;
    }
    ghost var before := db.users;
    var workspaceId := db.CreateWorkspace(NewWorkspaceDoc(userId, workspaceName));
    created := Some(workspaceId);
    if fault == SecondWriteFails {
      return Reply(500, Error(GenericError)), created;
    }
    var ok := db.UnionUserWorkspace(userId, workspaceId);
    assert ok;
    if validBefore {
      ArrayUnionNoDuplicates(before[userId].workspaces, workspaceId);
    }
    reply := Reply(200, IdMessage(workspaceId, WorkspaceCreated));
  }

  /** `getWorkspaceData`: `{ id, ...data }` for a stored workspace, or 404. */
  function GetWorkspaceData(db: Database, workspaceId: Id): (r: Reply<Entry<WorkspaceDoc>>)
    reads db
    ensures r.status == 200 <==> workspaceId in db.workspaces
    ensures workspaceId in db.workspaces ==> r.body == Data(Entry(workspaceId, db.workspaces[workspaceId]))
    ensures workspaceId !in db.workspaces ==> r == Reply(404, Message(WorkspaceNotFound))
  {
    match db.GetWorkspaceById(workspaceId)
    case Some(w) => Reply(200, Data(Entry(workspaceId, w)))
    case None => Reply(404, Message(WorkspaceNotFound))
  }

  /** The `{ pending, uploaded }` listing of one workspace. */
  datatype VideoLists = VideoLists(pending: seq<Entry<VideoDoc>>, uploaded: seq<Entry<VideoDoc>>)

  /**
   * `getVideosData`: the pending listing holds one entry per id of
   * `pending_videos` whose video exists and the uploaded listing one per id of
   * `uploaded_videos` (each in an order the model leaves open), dangling ids
   * dropped, both sent under the key `videos`; a missing workspace makes the
   * handler read a field of null and answer 500. Nothing is written.
   */
  method GetVideosData(db: Database, workspaceId: Id) returns (reply: Reply<VideoLists>)
    ensures workspaceId !in db.workspaces ==> reply == Reply(500, Error(GenericError))
    ensures workspaceId in db.workspaces ==>
              var w := db.workspaces[workspaceId];
              && reply.status == 200 && reply.body.Keyed? && reply.body.key == "videos"
              && multiset(reply.body.value.pending) == multiset(Listing.Resolve(w.pendingVideos, db.videos))
              && multiset(reply.body.value.uploaded) == multiset(Listing.Resolve(w.uploadedVideos, db.videos))
              && |reply.body.value.pending| <= |w.pendingVideos|
              && |reply.body.value.uploaded| <= |w.uploadedVideos|
              && (forall e | e in reply.body.value.pending ::
                    e.id in w.pendingVideos && e.id in db.videos && e.data == db.videos[e.id])
              && (forall e | e in reply.body.value.uploaded ::
                    e.id in w.uploadedVideos && e.id in db.videos && e.data == db.videos[e.id])
  {
    var workspace := db.GetWorkspaceById(workspaceId);
    if workspace.None? {
      return Reply(500, Error(GenericError));
    }
    var pending := Listing.FanOut(workspace.value.pendingVideos, db.videos);
    var uploaded := Listing.FanOut(workspace.value.uploadedVideos, db.videos);
    reply := Reply(200, Keyed("videos", VideoLists(pending, uploaded)));
  }

  /**
   * With a consistent store every pending id is listed with its video and
   * the uploaded listing is empty.
   */
  lemma VideosListedInFull(db: Database, workspaceId: Id)
    requires db.Valid() && workspaceId in db.workspaces
    ensures |Listing.Resolve(db.workspaces[workspaceId].pendingVideos, db.videos)| == |db.workspaces[workspaceId].pendingVideos|
    ensures Listing.Resolve(db.workspaces[workspaceId].uploadedVideos, db.videos) == []
  {
    assert WorkspaceLinked(workspaceId, db.workspaces[workspaceId], db.videos);
    Listing.ResolveNothingDropped(db.workspaces[workspaceId].pendingVideos, db.videos);
  }
}
