/**
 * The document store as the three model classes use it: a `users`, a
 * `workspaces` and a `videos` collection, each a map from document id to
 * document. `User.create` sets a document under the id it carries;
 * `Workspace.create` and `Video.create` add a document under an id the store
 * picks; `getById` answers the document or nothing; `update` with an
 * array-union changes one array field of one existing document.
 */
module Store {
  import opened Common

  datatype Roles = Roles(creator: bool, editor: bool)

  /** A document of the `users` collection. Absent optional fields are `None`. */
  datatype UserDoc = UserDoc(
    id: Id,
    email: string,
    accessToken: Option<string>,
    refreshToken: Option<string>,
    expiresAt: Option<int>,
    workspaces: seq<Id>,
    roles: Roles)

  /** A document of the `workspaces` collection. */
  datatype WorkspaceDoc = WorkspaceDoc(
    creator: Id,
    name: string,
    editors: seq<Id>,
    pendingVideos: seq<Id>,
    uploadedVideos: seq<Id>)

  /** A document of the `videos` collection. */
  datatype VideoDoc = VideoDoc(
    uploader: Id,
    workspaceId: Id,
    metadata: Json,
    videoFileName: string,
    thumbnailFileName: string)

  /** Which write of a request the store rejects (a thrown store error). */
  datatype StoreFault = NoFault | FirstWriteFails | SecondWriteFails

  /** The longest length among a finite set of ids. */
  ghost function MaxLength(ids: set<Id>): (n: nat)
    ensures forall x | x in ids :: |x| <= n
    decreases ids
  {
    if ids == {} then 0
    else
      var x :| x in ids;
      var rest := MaxLength(ids - {x});
      if |x| > rest then |x| else rest
  }

  /** A finite collection never uses up the ids: the store can always pick a fresh one. */
  lemma FreshIdExists(ids: set<Id>)
    ensures exists id: Id :: id !in ids
  {
    var longer := seq(MaxLength(ids) + 1, _ => 'x');
    assert longer !in ids;
  }

  /** Every id in `refs` names a document of `docs`. */
  ghost predicate AllIn<D>(refs: seq<Id>, docs: map<Id, D>) {
    forall r | r in refs :: r in docs
  }

  /**
   * What the controllers keep true of a workspace stored under `key`: its
   * pending ids are distinct and name videos that belong to it, and no id has
   * ever been moved to `uploadedVideos`.
   */
  ghost predicate WorkspaceLinked(key: Id, w: WorkspaceDoc, videos: map<Id, VideoDoc>) {
    && NoDuplicates(w.pendingVideos)
    && AllIn(w.pendingVideos, videos)
    && (forall v | v in w.pendingVideos && v in videos :: videos[v].workspaceId == key)
    && w.uploadedVideos == []
  }

  /**
   * Referential consistency of the three collections: every user sits under
   * its own id, holds the editor role (account creation always grants it)
   * and lists existing workspaces once each; every workspace was made by a
   * user holding the creator role and links only its own videos.
   */
  ghost predicate Consistent(users: map<Id, UserDoc>, workspaces: map<Id, WorkspaceDoc>, videos: map<Id, VideoDoc>) {
    && (forall k | k in users :: users[k].id == k && users[k].roles.editor)
    && (forall k | k in users :: NoDuplicates(users[k].workspaces) && AllIn(users[k].workspaces, workspaces))
    && (forall k | k in workspaces :: workspaces[k].creator in users && users[workspaces[k].creator].roles.creator)
    && (forall k | k in workspaces :: WorkspaceLinked(k, workspaces[k], videos))
  }

  class Database {
    var users: map<Id, UserDoc>
    var workspaces: map<Id, WorkspaceDoc>
    var videos: map<Id, VideoDoc>

    /** The stored collections are consistent. */
    ghost predicate Valid()
      reads this
    {
      Consistent(users, workspaces, videos)
    }

    constructor ()
      ensures users == map[] && workspaces == map[] && videos == map[]
      ensures Valid()
    {
      users, workspaces, videos := map[], map[], map[];
    }

    /** `User.getById`: the stored user, or nothing when no document has that id. */
    function GetUserById(id: Id): (r: Option<UserDoc>)
      reads this
      ensures r.None? <==> id !in users
      ensures r.Some? ==> r.value == users[id]
    {
      if id in users then Some(users[id]) else None
    }

    /** `Workspace.getById`. */
    function GetWorkspaceById(id: Id): (r: Option<WorkspaceDoc>)
      reads this
      ensures r.None? <==> id !in workspaces
      ensures r.Some? ==> r.value == workspaces[id]
    {
      if id in workspaces then Some(workspaces[id]) else None
    }

    /** `Video.getById`. */
    function GetVideoById(id: Id): (r: Option<VideoDoc>)
      reads this
      ensures r.None? <==> id !in videos
      ensures r.Some? ==> r.value == videos[id]
    {
      if id in videos then Some(videos[id]) else None
    }

    /** `User.create`: set the document under `data.id`, replacing any document there. */
    method CreateUser(data: UserDoc)
      modifies this
      ensures users == old(users)[data.id := data]
      ensures workspaces == old(workspaces) && videos == old(videos)
      ensures GetUserById(data.id) == Some(data)
    {
      users := users[data.id := data];
    }

    /** `Workspace.create`: add the document under a fresh id and answer that id. */
    method CreateWorkspace(data: WorkspaceDoc) returns (id: Id)
      modifies this
      ensures id !in old(workspaces)
      ensures workspaces == old(workspaces)[id := data]
      ensures users == old(users) && videos == old(videos)
      ensures GetWorkspaceById(id) == Some(data)
    {
      FreshIdExists(workspaces.Keys);
      id :| id !in workspaces;
      workspaces := workspaces[id := data];
    }

    /** `Video.create`: add the document under a fresh id and answer that id. */
    method CreateVideo(data: VideoDoc) returns (id: Id)
      modifies this
      ensures id !in old(videos)
      ensures videos == old(videos)[id := data]
      ensures users == old(users) && workspaces == old(workspaces)
      ensures GetVideoById(id) == Some(data)
    {
      FreshIdExists(videos.Keys);
      id :| id !in videos;
      videos := videos[id := data];
    }

    /**
     * `users.doc(userId).update({ workspaces: arrayUnion(workspaceId) })`.
     * The store refuses an update of a missing document; then nothing changes.
     */
    method UnionUserWorkspace(userId: Id, workspaceId: Id) returns (ok: bool)
      modifies this
      ensures ok <==> userId in old(users)
      ensures users == if ok then old(users)[userId := old(users)[userId].(workspaces := ArrayUnion(old(users)[userId].workspaces, workspaceId))] else old(users)
      ensures workspaces == old(workspaces) && videos == old(videos)
    {
      ok := userId in users;
      if ok {
        var u := users[userId];
        users := users[userId := u.(workspaces := ArrayUnion(u.workspaces, workspaceId))];
      }
    }

    /** `workspaces.doc(workspaceId).update({ pending_videos: arrayUnion(videoId) })`. */
    method UnionPendingVideo(workspaceId: Id, videoId: Id) returns (ok: bool)
      modifies this
      ensures ok <==> workspaceId in old(workspaces)
      ensures workspaces == if ok then old(workspaces)[workspaceId := old(workspaces)[workspaceId].(pendingVideos := ArrayUnion(old(workspaces)[workspaceId].pendingVideos, videoId))] else old(workspaces)
      ensures users == old(users) && videos == old(videos)
    {
      ok := workspaceId in workspaces;
      if ok {
        var w := workspaces[workspaceId];
        workspaces := workspaces[workspaceId := w.(pendingVideos := ArrayUnion(w.pendingVideos, videoId))];
      }
    }
  }

  /**
   * Under the consistency invariant a video id is pending in at most one
   * workspace, and no workspace has an id both pending and uploaded (the
   * latter holds trivially: nothing ever reaches `uploadedVideos`).
   */
  lemma PendingOwnedOnce(db: Database, v: Id, a: Id, b: Id)
    requires db.Valid()
    requires a in db.workspaces && b in db.workspaces
    requires v in db.workspaces[a].pendingVideos && v in db.workspaces[b].pendingVideos
    ensures a == b
    ensures v !in db.workspaces[a].uploadedVideos
  {
    assert WorkspaceLinked(a, db.workspaces[a], db.videos);
    assert WorkspaceLinked(b, db.workspaces[b], db.videos);
  }
}
