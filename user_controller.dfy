/**
 * The user handlers: account creation (an insert that is skipped when the id
 * is taken), a user lookup, and the listing of a user's workspaces.
 */
module UserController {
  import opened Common
  import opened Store
  import Listing

  /** The body of an account-creation request; an absent token field is `None`. */
  datatype AccountRequest = AccountRequest(
    id: Id,
    email: string,
    accessToken: Option<string>,
    refreshToken: Option<string>,
    expiresAt: Option<int>)

  const UserExists := "User already exists."
  const UserCreated := "User account created successfully."
  const UserNotFound := "User not found"

  /**
   * The document a new account gets: the credentials that were supplied (an
   * absent one stays absent), an empty workspace list, the editor role always
   * and the creator role exactly when an access token was supplied.
   */
  function NewUserDoc(req: AccountRequest): (u: UserDoc)
    ensures u.id == req.id && u.email == req.email && u.workspaces == []
    ensures u.accessToken == req.accessToken && u.refreshToken == req.refreshToken && u.expiresAt == req.expiresAt
    ensures u.roles.creator <==> req.accessToken.Some?
    ensures u.roles.editor
  {
    UserDoc(req.id, req.email, req.accessToken, req.refreshToken, req.expiresAt, [],
            Roles(creator := req.accessToken.Some?, editor := true))
  }

  /** The `users` collection after a successful account creation. */
  function InsertAccount(users: map<Id, UserDoc>, req: AccountRequest): (r: map<Id, UserDoc>)
    ensures r.Keys == users.Keys + {req.id}
    ensures forall k | k in users :: r[k] == users[k]
    ensures req.id !in users ==> r[req.id] == NewUserDoc(req)
  {
    if req.id in users then users else users[req.id := NewUserDoc(req)]
  }

  /**
   * Account creation is idempotent by id: once an account exists under an
   * id, a later request for that id (with any email or tokens) changes
   * nothing, and the existing document is kept.
   */
  lemma InsertAccountIdempotent(users: map<Id, UserDoc>, first: AccountRequest, again: AccountRequest)
    requires again.id == first.id
    ensures InsertAccount(InsertAccount(users, first), again) == InsertAccount(users, first)
    ensures first.id in users ==> InsertAccount(users, first)[first.id] == users[first.id]
  {
  }

  /**
   * `createAccount`: answers 200 "User already exists." and writes nothing
   * when the id is taken; otherwise sets the new document and answers 201,
   * or 500 with nothing written when the store rejects the write.
   */
  method CreateAccount(db: Database, req: AccountRequest, fault: StoreFault) returns (reply: Reply<()>)
    modifies db
    ensures db.workspaces == old(db.workspaces) && db.videos == old(db.videos)
    ensures req.id in old(db.users) ==> reply == Reply(200, Message(UserExists)) && db.users == old(db.users)
    ensures req.id !in old(db.users) && fault == FirstWriteFails ==>
              reply == Reply(500, Error(GenericError)) && db.users == old(db.users)
    ensures req.id !in old(db.users) && fault != FirstWriteFails ==>
              reply == Reply(201, Message(UserCreated)) && db.users == InsertAccount(old(db.users), req)
    ensures old(db.Valid()) ==> db.Valid()
  {
    var existing := db.GetUserById(req.id);
    if existing.Some? {
      return Reply(200, Message(UserExists));
    }
    if fault == FirstWriteFails {
      return Reply(500, Error(GenericError));
    }
    db.CreateUser(NewUserDoc(req));
    reply := Reply(201, Message(UserCreated));
  }

  /** `getUserData`: the stored document, or 404. */
  function GetUserData(db: Database, id: Id): (r: Reply<UserDoc>)
    reads db
    ensures r.status == 200 <==> id in db.users
    ensures id in db.users ==> r.body == Data(db.users[id])
    ensures id !in db.users ==> r == Reply(404, Message(UserNotFound))
  {
    match db.GetUserById(id)
    case Some(u) => Reply(200, Data(u))
    case None => Reply(404, Message(UserNotFound))
  }

  /**
   * `getWorkspacesData`: one `{ id, ...data }` entry per id in the user's
   * `workspaces` whose workspace exists (in an order the model leaves open),
   * dangling ids dropped; a missing user makes the handler read a field of
   * null and answer 500. The listing is sent under the key `workspaces`.
   */
  method GetWorkspacesData(db: Database, creatorId: Id) returns (reply: Reply<seq<Entry<WorkspaceDoc>>>)
    ensures creatorId !in db.users ==> reply == Reply(500, Error(GenericError))
    ensures creatorId in db.users ==>
              && reply.status == 200 && reply.body.Keyed? && reply.body.key == "workspaces"
              && multiset(reply.body.value) == multiset(Listing.Resolve(db.users[creatorId].workspaces, db.workspaces))
              && |reply.body.value| <= |db.users[creatorId].workspaces|
              && (forall e | e in reply.body.value ::
                    e.id in db.users[creatorId].workspaces && e.id in db.workspaces && e.data == db.workspaces[e.id])
  {
    var user := db.GetUserById(creatorId);
    if user.None? {
      return Reply(500, Error(GenericError));
    }
    var found := Listing.FanOut(user.value.workspaces, db.workspaces);
    reply := Reply(200, Keyed("workspaces", found));
  }

  /** With a consistent store the workspace listing drops nothing. */
  lemma WorkspacesListedInFull(db: Database, creatorId: Id)
    requires db.Valid() && creatorId in db.users
    ensures |Listing.Resolve(db.users[creatorId].workspaces, db.workspaces)| == |db.users[creatorId].workspaces|
  {
    Listing.ResolveNothingDropped(db.users[creatorId].workspaces, db.workspaces);
  }
}
