# collabsync-api: workspace and video bookkeeping, modelled in Dafny

This project models the core of the collabsync-api backend, an Express server
on a Firestore document store. The modelled core covers how users,
workspaces and videos are created, linked and listed. The three collections
become one `Store.Database` class holding three maps: `users`, `workspaces`
and `videos`, each keyed by document id.

- **Store operations.** The model classes' `create` and `getById` are
  methods and functions on that class. A user is *set* under its own id. A
  workspace or video is *added* under a fresh id. An array-union `update` of
  a missing document is refused.
- **Controllers.** Each controller is a method that takes the database. A
  `StoreFault` parameter says which store write, if any, throws.
- **`ArrayUnion`.** Firestore's `FieldValue.arrayUnion` on one element,
  modelled as a function on sequences.
- **Listings.** The fan-out listings (`Promise.all` with `push`) become a
  sequential loop, `Listing.FanOut`, proved against the function
  `Listing.Resolve`. The controllers promise the listed entries only up to
  order, as a multiset.
- **Consistency invariant.** `Database.Valid()` is `Store.Consistent` of the three collections, which says:
  - users sit under their own id and hold the editor role;
  - workspace and pending-video links point at existing documents;
  - no id is listed twice;
  - each pending video belongs to the workspace that lists it;
  - nothing is ever uploaded.

  Every mutating controller preserves it. None requires it, because the
  handlers accept any store.
- **Upload storage.** The multer storage configuration is modelled as pure
  string functions: the destination directory and the stored filename.
- **Request validators.** The express-validator chains are modelled as one
  engine: a list of checks, the error list, and "first error wins". Each
  route's decision is proved in closed form.
- **Submission gate.** Account creation always grants `editor`
  (src/controllers/userController.js:29), so the role test at
  src/controllers/videoController.js:25 never refuses a stored user. As
  `SubmitGateIsExistence` states, any user may submit a video to any
  workspace. A workspace's `editors` array is never read.
- **JWT middleware.** Its decision is a pure function. The
  request's `user` field is a class field that the middleware assigns.

Library behaviour is passed in as parameters:
- `JSON.parse` is `string -> Option<Json>`;
- `isEmail` and `isURL` are `string -> bool`;
- `jwt.verify` with the server secret is `string -> Option<Decoded>`;
- the publishing platform's upload is `UploadCall -> Option<Json>`, where
  `None` means it threw;
- `new Date().toISOString()` is a string argument;
- `Math.round(Math.random() * 1E9)` is a `nat` argument.

## Model

| member | source | states |
|---|---|---|
| `Common.ArrayUnion` | src/controllers/workspaceController.js:30-32 | the added id is present afterwards; earlier entries stay in place as a prefix; at most one element is added and nothing else; the array is unchanged exactly when the id was already there |
| `Common.ArrayUnionCount` | src/controllers/videoController.js:41-43 | after a union the added id occurs exactly once if it was absent (its old count otherwise); every other element keeps its count |
| `Common.ArrayUnionIdempotent` | src/controllers/workspaceController.js:30-32 | applying the same union twice equals applying it once |
| `Common.ArrayUnionNoDuplicates` | src/controllers/videoController.js:41-43 | a union keeps a duplicate-free array duplicate-free |
| `Common.ArrayUnionCommutes` | src/controllers/videoController.js:41-43 | two unions in either order give the same elements and the same length |
| `Common.UnionAllContents` | src/controllers/videoController.js:41-43 | any sequence of unions keeps the old array as a prefix, ends with exactly the old and the added ids, and introduces no duplicate |
| `Store.FreshIdExists` | src/models/Workspace.js:26-28 | a finite collection always leaves some id unused, so `add` can always pick a fresh one |
| `Store.Database.GetUserById` | src/models/User.js:37-41 | answers nothing exactly when no user document has the id, and otherwise the stored document |
| `Store.Database.GetWorkspaceById` | src/models/Workspace.js:35-39 | answers nothing exactly when the workspace is absent, and otherwise the stored document |
| `Store.Database.GetVideoById` | src/models/Video.js:39-43 | answers nothing exactly when the video is absent, and otherwise the stored document |
| `Store.Database.CreateUser` | src/models/User.js:28-30 | sets the document under `data.id`, replacing any earlier one; only `users` changes, only at that key; `getById(data.id)` then gives the document back |
| `Store.Database.CreateWorkspace` | src/models/Workspace.js:26-28 | adds the document under an id not used before and answers it; every earlier workspace is kept; `getById` on the answered id gives the document back |
| `Store.Database.CreateVideo` | src/models/Video.js:30-32 | adds the document under an id not used before and answers it; every earlier video is kept; `getById` on the answered id gives the document back |
| `Store.Database.UnionUserWorkspace` | src/controllers/workspaceController.js:30-32 | succeeds exactly when the user exists; then only that user's `workspaces` changes, by an array-union; otherwise nothing changes |
| `Store.Database.UnionPendingVideo` | src/controllers/videoController.js:41-43 | succeeds exactly when the workspace exists; then only its `pending_videos` changes, by an array-union; otherwise nothing changes |
| `Store.PendingOwnedOnce` | src/controllers/videoController.js:30-43 | in a consistent store a video is pending in at most one workspace; it is never both pending and uploaded, which holds trivially because nothing is ever uploaded |
| `Listing.Resolve` | src/controllers/workspaceController.js:79-99 | the listed entries number at most the ids; each entry carries an id from the array and exactly the stored document for it |
| `Listing.ResolveMultiplicity` | src/controllers/userController.js:78-87 | each stored document named in the array is listed once per occurrence of its id; a dangling id is listed not at all |
| `Listing.ResolveNothingDropped` | src/controllers/userController.js:78-87 | when every id names a stored document, one entry is listed per id |
| `Listing.FanOut` | src/controllers/workspaceController.js:79-88 | the per-id lookup-and-push loop yields exactly `Resolve` of the array |
| `UserController.NewUserDoc` | src/controllers/userController.js:20-31 | the new account keeps id, email and each credential as supplied, with absent ones left absent; it has an empty workspace list; `editor` is always true and `creator` is true exactly when an access token was supplied |
| `UserController.InsertAccount` | src/controllers/userController.js:14-33 | the users after an account creation hold the old ids plus the requested one; every existing account is kept as it was; a new id gets `NewUserDoc` of the request |
| `UserController.InsertAccountIdempotent` | src/controllers/userController.js:14-35 | a second account creation for the same id, with any other fields, leaves the users as the first left them, and an existing account is never overwritten |
| `UserController.CreateAccount` | src/controllers/userController.js:10-41 | a taken id gives 200 "User already exists." and no write; a rejected write gives 500 and no write; otherwise 201, with the new document inserted and nothing else changed; preserves consistency |
| `UserController.GetUserData` | src/controllers/userController.js:49-64 | 200 with the stored document exactly when the user exists, otherwise 404 "User not found" |
| `UserController.GetWorkspacesData` | src/controllers/userController.js:72-94 | a missing user gives 500; otherwise 200 with `{ workspaces }` holding the `Resolve` entries of the user's `workspaces` in some order; no more entries than ids, each with its stored workspace |
| `UserController.WorkspacesListedInFull` | src/controllers/userController.js:78-89 | in a consistent store the workspace listing drops nothing |
| `WorkspaceController.CanCreateWorkspace` | src/controllers/workspaceController.js:16-18 | the creation gate never admits a user id that has no document |
| `WorkspaceController.LinkWorkspaceKeeps` | src/controllers/workspaceController.js:27-32 | linking lists the new id, keeps earlier entries as a prefix, changes nothing but `workspaces`, lists a fresh id exactly once, and is idempotent |
| `WorkspaceController.CreateWorkspace` | src/controllers/workspaceController.js:12-42 | 403 with no write unless the user exists and is a creator; a rejected first write gives 500 with no write; otherwise adds `{creator, name, [], [], []}` under a fresh id; a rejected second write gives 500 and leaves the user unlinked; otherwise 200 with that same id, and the creator linked to it; videos are never touched; preserves consistency |
| `WorkspaceController.GetWorkspaceData` | src/controllers/workspaceController.js:50-65 | 200 with `{id, ...data}` exactly when the workspace exists, otherwise 404 "Workspace not found" |
| `WorkspaceController.GetVideosData` | src/controllers/workspaceController.js:73-106 | a missing workspace gives 500; otherwise 200 with `{ videos }`, where each of `pending` and `uploaded` is the `Resolve` of its own array in some order, no longer than it, each entry from that array with its stored video; nothing is written |
| `WorkspaceController.VideosListedInFull` | src/controllers/workspaceController.js:79-99 | in a consistent store every pending id is listed with its video, and the uploaded listing is empty |
| `VideoController.CanSubmitVideo` | src/controllers/videoController.js:20-28 | the submission gate admits only an existing uploader and an existing workspace, and always admits an editor |
| `VideoController.SubmitGateIsExistence` | src/controllers/videoController.js:22-26 | in a consistent store every user holds the editor role, so the gate passes exactly when the uploader and the workspace exist; membership in a workspace's `editors` is never consulted |
| `VideoController.StringOf` | src/controllers/videoController.js:35 | a given thumbnail name is kept; an absent one becomes the text "undefined" |
| `VideoController.LinkPendingKeeps` | src/controllers/videoController.js:41-43 | linking lists the video as pending, keeps earlier pending entries as a prefix, lists a fresh id exactly once, leaves `creator`, `name`, `editors` and `uploaded_videos` alone, and is idempotent |
| `VideoController.CreateVideo` | src/controllers/videoController.js:17-50 | never touches users; succeeds exactly when the gate passes (both documents exist and the uploader is creator or editor), the metadata parses and no write fails; gate refusal, a parse failure or a rejected insert writes nothing; otherwise exactly one new video `{uploader, workspaceId, metadata, videoFileName, String(thumbnail)}` is stored under a fresh id, and on success it is linked into `pending_videos` exactly once; a failed link leaves the video stored; preserves consistency |
| `VideoController.SubmissionKeepsConsistent` | src/controllers/videoController.js:30-43 | in a consistent store, inserting a fresh video of an existing workspace keeps the store consistent, and so does then linking it into that workspace's `pending_videos`, where it is listed exactly once |
| `VideoController.GetVideoData` | src/controllers/videoController.js:58-74 | 200 with the stored document exactly when the video exists, otherwise 404 "Video not found" |
| `VideoController.UploadToYT` | src/controllers/videoController.js:82-110 | a missing owner or video gives 404 before any platform call; otherwise exactly one upload is issued, with "custompath", the owner's tokens and the video's metadata, and the answer is 200 with `{ data }` holding the platform's answer, or 500; nothing in the store changes |
| `VideoController.UploadVideo` | src/controllers/videoController.js:118-153 | a multer error gives 400 and another parser error gives 500; a missing or empty video field gives 400; each of these writes nothing; otherwise a video is stored exactly when the gate passes, the metadata parses and the insert is not rejected, as `createVideo` with the first video's and the first thumbnail's names (absent when there is no thumbnail field); the answer is 200 exactly when `createVideo` succeeds, and then the new video is linked into `pending_videos` exactly once; a 500 after a stored video leaves the workspaces unchanged; preserves consistency |
| `Validation.Errors` | src/validators/userValidator.js:42-43 | at most one message per check; no messages exactly when every check passes |
| `Validation.IsRequestValidated` | src/validators/userValidator.js:41-47 | `next` is called exactly when the error list is empty; a non-empty list gives 400 with its first message |
| `Validation.ValidatedIsFirstFailure` | src/validators/videoValidator.js:46-52 | answering the first of all collected errors is the same as stopping at the first failing check |
| `Validation.FirstFailureWins` | src/validators/workspaceValidator.js:57-62 | when check i is the first to fail, the answer is 400 with check i's message |
| `UserValidator.CreateAccountDecision` | src/validators/userValidator.js:7-12 | an id shorter than 6 is rejected first, then an address that `isEmail` refuses; anything else goes on |
| `UserValidator.GetUserDecision` | src/validators/userValidator.js:18-22 | rejected exactly when `id` is shorter than 6 characters |
| `UserValidator.GetWorkspacesDecision` | src/validators/userValidator.js:28-32 | rejected exactly when `creatorId` is shorter than 6 characters |
| `VideoValidator.CreateVideoDecision` | src/validators/videoValidator.js:7-17 | a short `uploaderId` is rejected first, then a short `workspaceId`, then a `storageUrl` that `isURL` refuses; anything else goes on |
| `VideoValidator.GetVideoDataDecision` | src/validators/videoValidator.js:23-27 | rejected exactly when `videoId` is shorter than 6 characters |
| `VideoValidator.GetVideosDecision` | src/validators/videoValidator.js:33-37 | rejected exactly when `userId` is shorter than 6 characters |
| `WorkspaceValidator.CreateWorkspaceDecision` | src/validators/workspaceValidator.js:7-14 | a `workspaceName` shorter than 2 is rejected first, then a `userId` shorter than 6; anything else goes on |
| `WorkspaceValidator.GetWorkspaceDecision` | src/validators/workspaceValidator.js:20-24 | rejected exactly when `workspaceId` is shorter than 6 characters |
| `WorkspaceValidator.GetVideosDecision` | src/validators/workspaceValidator.js:30-34 | rejected exactly when `workspaceId` is shorter than 6 characters |
| `WorkspaceValidator.GetChannelDecision` | src/validators/workspaceValidator.js:40-47 | passes exactly when both `workspaceId` and `userId` have at least 6 characters; the workspace id's message wins |
| `MulterConfig.Destination` | src/multerConfig.js:4-15 | always under `./uploads/`; `videos/` exactly for the `video` field, `thumbnails/` exactly for `thumbnail`, and the root for any other field |
| `MulterConfig.Split` | src/multerConfig.js:21 | `split` always yields at least one piece |
| `MulterConfig.SplitJoin` | src/multerConfig.js:21 | joining the pieces of a split gives the text back, and no piece holds the separator |
| `MulterConfig.SplitLast` | src/multerConfig.js:21 | the last piece of a split is the dot-free tail after the last separator, or the whole text exactly when there is none |
| `MulterConfig.Extension` | src/multerConfig.js:21 | the extension holds no dot and ends the name; it is the whole name exactly when the name has no dot, and otherwise a dot precedes it |
| `MulterConfig.RemoveAll` | src/multerConfig.js:24 | `replace(/-/g, '')` leaves no dash and never lengthens the text |
| `MulterConfig.RemoveAllConcat` | src/multerConfig.js:24 | removing dashes distributes over concatenation |
| `MulterConfig.RemoveAllAbsent` | src/multerConfig.js:24 | removing a character the text does not hold gives the text back |
| `MulterConfig.DatePart` | src/multerConfig.js:24 | never holds a dash and is at most 10 characters long; for an ISO date it is exactly the eight digits `yyyyMMdd` |
| `MulterConfig.Decimal` | src/multerConfig.js:27 | the random number's text is non-empty, digits only, with no leading zero |
| `MulterConfig.DecimalRoundTrip` | src/multerConfig.js:27 | reading the decimal text back gives the number |
| `MulterConfig.Filename` | src/multerConfig.js:19-31 | the stored name starts with the original name, a dash, the date part and a dash; then come the random number's digits, a dash and the workspace id; it ends with "." and the extension; for an ISO date the eight date digits sit right after the original name and a dash |
| `Auth.Decide` | src/middlewares/auth.js:4-28 | exempt exactly for a POST to `/user`; otherwise 401 "Token missing" exactly when the header is absent or empty, 401 "Invalid token" exactly when the verifier refuses the token, and acceptance with the token's `user` claim otherwise |
| `Auth.AuthenticateJWT` | src/middlewares/auth.js:4-28 | either calls `next` or sends a 401, never both; `req.user` is set to the token's `user` claim on acceptance and is left alone in every other case |

## Left out

- src/youtube.js (the publishing platform client) is not part of this model. Its upload call is a parameter of `UploadToYT`.
- `streamVideo` and `getThumbnail` are not modelled. They only stream files from disk.
- The multer invocation inside `uploadVideo` is not modelled. `UploadVideo` starts from the parser's outcome and the parsed file lists.
- The parser never creates an empty file field, so `UploadVideo` requires a present thumbnail field to hold a file.
- VideoController.UploadVideo: a request that is not multipart is not modelled. The parser then calls back without error and leaves `req.files` undefined; reading `req.files['video']` throws inside the callback, and no reply is ever sent. The model's file lists always come from a parsed multipart body, where `None` means that field was not sent.
- The reply bodies model `{ message }`, `{ error }`, `{ id, message }`, one-key wrappers such as `{ workspaces }`, and bare documents. They do not model JSON serialisation.
- Reads never fail in the model. Firestore read errors, which the handlers answer with 500, are not modelled.
- Writes fail only through the `StoreFault` parameter, which names the write that throws.
- Firestore's own concurrency and the atomicity of `arrayUnion` are not modelled. Each handler runs to completion on its own.
  - `ArrayUnionCommutes` and `UnionAllContents` state what is left of the concurrent-submission property.
- The fan-out listings run their lookups sequentially in the model.
- UserController.GetWorkspacesData: the source pushes entries in completion order, so the contract gives the result only as a multiset equal to `Resolve`, not in array order.
- WorkspaceController.GetVideosData: same as `GetWorkspacesData`.
- Request fields are always strings in the model. For length checks, express-validator turns a missing field into the empty text, which is modelled.
  - Non-string JSON values are not modelled.
  - Neither is how `isLength` counts code points.
- `undefined` request fields reaching the handlers are not modelled. Examples are a missing `workspaceName`, or a missing `id` in `createAccount`, which throws on `id.toString()` and answers 500.
- Documents with missing `roles`, `workspaces` or `pending_videos` fields are not modelled. Every stored document has all its fields.
- `DatePart`'s exact eight digits are proved only for timestamps that start `yyyy-MM-dd`. That covers years 0000-9999; the extended-year form `+yyyyyy` is not.
- No operation moves a video from `pending_videos` to `uploaded_videos`, because the code has no such step.
  - `uploadToYT` only calls the platform and leaves the store alone.
  - The intended workflow has creators publish pending videos, but no code performs that move, and this model follows the code.
  - As a result, `uploaded_videos` stays empty in every consistent store.
- Routing and wiring are not modelled: src/routes/*.js, src/app.js, src/server.js and src/config.js. That leaves several facts about them outside the model:
  - `authenticateJWT` is defined but never mounted in src/app.js.
  - `uploadVideo` has no route.
  - The `createVideo` route passes `(req, res)` to a function that takes ids.
  - The routes name `getChannel`, `getChannelAnalytics` and `getBestVideos`, which the controllers do not export.
  - The validator chains are modelled; whether and where they are mounted is not.
- src/utils/sendWpMessage.js (a messaging client) is not part of this model.
- Console logging is not modelled.
- JSON values are opaque to the model. A number is kept as a decimal `mantissa * 10^exponent`; binary floating-point rounding is not modelled.

