# InStephGram core in Dafny

InStephGram is a small social-media application: users post images with
captions, like and unlike posts, and comment on them. An Express/Mongoose
backend serves a React single-page app. This project models the parts of it
that hold logic:

- **Post handlers** (`PostController`): `createPost`, `updatePost`,
  `deletePost`, `likePost`, `getPost`, `getPostsByUserId` and `getPostById`.
- **Image upload** (`MediaUpload`): `uploadToS3`, with its ordered checks and
  its sanitised storage key.
- **Upload route** (`UploadRoute`): the multipart route in front of
  `uploadToS3`, with its file-name filter, its 100 MB limit and its error replies.
- **Comment handlers** (`CommentController`) and **user handlers**
  (`UserController`).
- **Schemas** (`Models`): the Post, User and Comment schemas, with required
  fields, defaults and trimming.
- **Document store** (`Store`): the three collections, held as maps from id
  to document in a `Database` object that the handlers change in place, plus
  the invariant every handler keeps.
- **`TextType` banner** (`TextType`): the typewriter animation, as a
  transition function and as a component object whose `Step` performs one
  transition.
- **Client post lists**:
  - `ClientPosts` holds the shared list logic: normalising the like fields,
    sorting newest first, merging a like reply, filtering by author,
    removing by id, and the like button's in-flight flag.
  - The home feed, the account page and the public profile page
    (`HomePage`, `AccPage`, `UserProfilePage`) are objects whose methods
    change their state as the pages do.

Every writing handler appears twice:

- a pure `…Outcome` function over a store `Snapshot`, whose contract states
  each error branch (in the handler's order, with its status and message),
  what a success writes, and that the store invariant still holds;
- a method on the `Database` that performs the handler's steps and is proved
  to end in exactly that outcome.

Lemmas beside the outcome functions prove the properties the code promises:

- `likesCount` equals the length of `likes`;
- a user likes a post at most once, and other likers are untouched;
- an unlike never takes a non-negative author total below zero (a total
  preset at sign-up can be negative, and stays so until likes lift it);
- a non-owner cannot delete a post or a comment;
- two likes in a row restore the like state.

Inputs the handlers get from outside are parameters:

- whether the store answers or throws (`StoreStatus`);
- the id the driver gives a new document;
- `Date.now()`;
- the S3 reply and the AWS environment variables;
- the replies of the client's fetches.

Facts about the code that a reader might not expect:

- Image uploads are capped at 5 MB; the route in front lets files of up to 100 MB through.
- Videos pass the route's filter, but `uploadToS3` refuses every type but
  JPEG, PNG and GIF. There is no transcoding and no `mediaType` field.
- `createPost` saves the post before it looks up the author. An unknown
  author gives 404 with the post left stored.
- A duplicate username or email makes `createUser` answer 500.
- The backend has no leaderboard, login or lookup-by-username handler.

## Model

| member | source | states |
|---|---|---|
| Models.NewPost | backend/models/Post.js:2-57 | a new post has no likes, a zero count and consistent like state, keeps the given fields and has no sports-pick extras |
| Models.NewUser | backend/models/User.js:3-40 | a new user has trimmed username and email; bio, profile image, posts, like total and creation time are the given values or the defaults (empty, empty, none, zero, now); it passes `required` exactly when trimmed names and password are non-empty |
| Models.TrimIdempotent | backend/models/User.js:8-14 | trimming twice is trimming once |
| Models.TrimEmptyIff | backend/models/User.js:4-15 | a trimmed value is empty exactly when it is all ECMAScript white space or line terminators (so `required` fails on it) |
| Models.NewComment | backend/models/Comment.js:3-26 | a new comment passes the schema's `required` validators exactly when content and username are non-empty |
| Store.AddCommentKeeps | backend/models/Comment.js:3-26 | storing a comment that passes its validators under its own id keeps the comments collection well formed |
| Store.PutPostKeeps | backend/models/Post.js:19-23 | storing a post with well-formed id and author id keeps the posts collection well formed |
| Store.ReplaceUserKeeps | backend/models/User.js:4-15 | rewriting a user without changing username or email keeps both unique indexes |
| Store.AddUserKeeps | backend/models/User.js:4-15 | adding a user whose names no one has keeps the unique indexes |
| MediaUpload.Sanitize | backend/controllers/post.controller.js:57 | the sanitised name has the original's length; letters, digits and dots stay in place, anything else becomes `_` |
| MediaUpload.SanitizeLaws | backend/controllers/post.controller.js:57 | the sanitised name is safe, a clean name is unchanged, sanitising is idempotent |
| MediaUpload.DecimalRoundTrip | backend/controllers/post.controller.js:58 | the timestamp's decimal digits read back as the timestamp |
| MediaUpload.StorageKey | backend/controllers/post.controller.js:57-58 | the key is longer than the name and uses only letters, digits, dots and `_` |
| MediaUpload.KeyRoundTrip | backend/controllers/post.controller.js:58 | the key splits at its first `_` back into the timestamp and the sanitised name |
| MediaUpload.S3Failure | backend/controllers/post.controller.js:92-109 | a failed upload is a 500 with the bucket, access or generic message chosen by the error code |
| MediaUpload.UploadToS3 | backend/controllers/post.controller.js:15-110 | no file, over 5 MB, a type other than JPEG/PNG/GIF, missing AWS settings: checked in that order, the first failure answers and nothing is sent; otherwise exactly one put with the key, buffer and type, and the reply's URL and key on success |
| MediaUpload.SentObjectsAreSmallImages | backend/controllers/post.controller.js:24-40 | whatever reaches S3 is a JPEG, PNG or GIF of at most 5 MB |
| UploadRoute.LastExtension | backend/routes/upload.route.js:15-16 | the text after the last dot, which holds no dot |
| UploadRoute.FilterIsLastExtension | backend/routes/upload.route.js:13-20 | the file filter accepts a name exactly when its last extension, ignoring case, is one of the eight |
| UploadRoute.Parse | backend/routes/upload.route.js:6-21 | in this order: another field is `Unexpected field`, a refused name is `Only image and video files are allowed!`, over 100 MB is `File too large`; the part is handed on exactly when all three checks pass, and no part leaves the file unset |
| UploadRoute.Route | backend/routes/upload.route.js:24-44 | another field answers 400 `Upload error: Unexpected field`, a refused name 400 `Only image and video files are allowed!`, a file over 100 MB 400 `Upload error: File too large`; an accepted part or no part goes to `uploadToS3` |
| UploadRoute.RouteStoresOnlySmallImages | backend/routes/upload.route.js:13-44 | anything the route sends to S3 came in field `file`, passed the filter and is a small image |
| UploadRoute.VideoRefused | backend/routes/upload.route.js:15-19 | `clip.MP4` as `video/mp4` passes the filter and the route still refuses it |
| UploadRoute.FilterTrustsName | backend/routes/upload.route.js:16-19 | any content named `a.gif` and declared `image/gif` is uploaded |
| PostController.ToggleLike | backend/controllers/post.controller.js:324-338 | the liker's membership flips, the liker occurs at most once, nobody else's entries change |
| PostController.AdjustedTotal | backend/controllers/post.controller.js:328-338 | an unlike never goes up except to zero, and never below zero from a non-negative total; a like always goes up |
| PostController.ToggleKeepsOtherLikers | backend/controllers/post.controller.js:324-334 | every other liker keeps their number of entries |
| PostController.ToggleKeepsDistinct | backend/controllers/post.controller.js:324-334 | a like list without repeats stays without repeats |
| PostController.ToggleTwice | backend/controllers/post.controller.js:324-334 | two toggles restore membership, and the whole list up to order when the liker was there at most once |
| PostController.ToggleTwiceTotal | backend/controllers/post.controller.js:328-338 | two toggles restore the author's total exactly when it was non-negative before a like, or at least 1 before an unlike |
| PostController.LikedVersion | backend/controllers/post.controller.js:324-341 | only `likes` and `likesCount` change, and the count is the list's length |
| PostController.LikePostOutcome | backend/controllers/post.controller.js:275-374 | 404 bad post id, 404 bad user id, 500 with the error detail, 404 missing post, 404 missing author, 500 with the validation message when the stored post lacks a required string, in that order, none writing; 200 exactly when every guard passes and the post validates |
| PostController.MissingPaths | backend/models/Post.js:3-18 | no path is reported exactly when title, caption and author are non-empty |
| PostController.UpdateThenLikeFails | backend/controllers/post.controller.js:350-372 | an update that empties the title is accepted, and the next like of the post is a 500 that writes nothing |
| PostController.LikeEffect | backend/controllers/post.controller.js:324-365 | an accepted like flips the liker, keeps other likers, sets the count, moves the author total, changes nothing else and replies with the saved post and total |
| PostController.LikeKeepsConsistency | backend/controllers/post.controller.js:324-341 | a like keeps `likesCount == |likes|` and no repeats |
| PostController.LikeTwice | backend/controllers/post.controller.js:275-374 | liking twice succeeds both times and restores membership; it restores the total exactly when it was at least 1 before an unlike, or non-negative before a like |
| PostController.LikePost | backend/controllers/post.controller.js:275-374 | the handler's steps end in `LikePostOutcome` and keep the store invariant |
| PostController.SaveLike | backend/controllers/post.controller.js:320-372 | the toggle and the two saves of a found post end in `LikePostOutcome`, the rejected save included |
| PostController.CreatePostOutcome | backend/controllers/post.controller.js:149-219 | 400 missing field, 400 bad user id, 500 `Server Error: …`, then the post is saved; 404 `User not found` with the post kept, or 201 with the id appended to the author's `posts` |
| PostController.CreatePost | backend/controllers/post.controller.js:149-219 | the handler's steps end in `CreatePostOutcome` |
| PostController.ApplyPatch | backend/controllers/post.controller.js:229 | an update keeps the id and creation time |
| PostController.PatchLaws | backend/controllers/post.controller.js:229 | an empty update changes nothing; the same update twice is the update once |
| PostController.UpdatePostOutcome | backend/controllers/post.controller.js:222-234 | 404 bad id, 500 when the store fails or an id field does not cast, 200 with no post when absent, else the patched post; no other document changes |
| PostController.UpdateCanBreakLikeCount | backend/controllers/post.controller.js:229 | an update can leave `likesCount` different from the list's length |
| PostController.UpdatePost | backend/controllers/post.controller.js:222-234 | the handler's steps end in `UpdatePostOutcome` |
| PostController.DeletePostOutcome | backend/controllers/post.controller.js:236-273 | 400 bad post id, 400 bad user id, 500, 404 missing post, 403 non-owner, none writing; otherwise the post is gone and comments untouched |
| PostController.PullPost | backend/controllers/post.controller.js:262-265 | `$pull` removes the id from the owner's `posts` and keeps the users well formed |
| PostController.DeletePostEffect | backend/controllers/post.controller.js:259-268 | only the owner changes, and their `posts` loses the id and keeps every other entry in order |
| PostController.DeletePost | backend/controllers/post.controller.js:236-273 | the handler's steps end in `DeletePostOutcome` |
| PostController.GetPostsByUserId | backend/controllers/post.controller.js:376-392 | 400 bad id, 500, else exactly that author's posts, each once, newest first |
| PostController.GetPostById | backend/controllers/post.controller.js:394-413 | 400 bad id, 500, 404 missing, else the stored post |
| PostController.GetPosts | backend/controllers/post.controller.js:134-147 | every stored post, each once; a connection error answers an empty list, any other error 500 |
| CommentController.GetComments | backend/controllers/comment.controller.js:4-19 | 400 bad post id, 500, else exactly that post's comments, each once, newest first |
| CommentController.CreateCommentOutcome | backend/controllers/comment.controller.js:21-47 | 400 missing field before 400 bad id, 500, else 201 storing exactly the given fields; the post is not looked up |
| CommentController.CreateComment | backend/controllers/comment.controller.js:21-47 | the handler's steps end in `CreateCommentOutcome` |
| CommentController.DeleteCommentOutcome | backend/controllers/comment.controller.js:49-74 | 400 bad id, 500, 404 missing, 403 not the author, none writing; else only that comment is removed |
| CommentController.OnlyAuthorDeletesComment | backend/controllers/comment.controller.js:64-69 | a comment disappears exactly when its author asks and the store is up |
| CommentController.CreateThenDeleteComment | backend/controllers/comment.controller.js:21-74 | creating a comment and then deleting it as its author restores the comments |
| CommentController.DeleteComment | backend/controllers/comment.controller.js:49-74 | the handler's steps end in `DeleteCommentOutcome` |
| UserController.GetUsers | backend/controllers/user.controller.js:4-12 | 500, else every stored user, each once |
| UserController.CreateUserOutcome | backend/controllers/user.controller.js:14-27 | 400 unless username, email and passwordHash are given; every failed save (store down, a preset post id that does not cast, an empty required field, a taken name) is 500 storing nothing; 201 exactly when the save succeeds, storing the body as `new User` builds it |
| UserController.DuplicateRefused | backend/controllers/user.controller.js:19-26 | a username or email already taken, up to surrounding white space, gives 500 |
| UserController.PasswordHashAlone | backend/controllers/user.controller.js:16-26 | `passwordHash` without `password` passes the handler's check and fails the schema with 500 |
| UserController.CreatedUserFresh | backend/controllers/user.controller.js:19-22 | a created user has trimmed names; one whose body presets no posts, like total or creation time has no posts, no likes and the creation time now |
| UserController.PresetCountersStored | backend/controllers/user.controller.js:19-22 | posts, like total and creation time given in the body are stored as given, a negative total included |
| UserController.BadPresetPostRefused | backend/models/User.js:27-30 | a preset post id that is not an ObjectId makes the create a 500 that stores nothing |
| UserController.CreateUser | backend/controllers/user.controller.js:14-27 | the handler's steps end in `CreateUserOutcome` |
| UserController.UpdateUser | backend/controllers/user.controller.js:29-41 | a well-formed id gets 404 `Invalid Product ID`, any other 500; it never succeeds |
| UserController.DeleteUserOutcome | backend/controllers/user.controller.js:43-51 | any cast id with a live store answers `User deleted`, whether or not the user existed |
| UserController.DeleteUserOrphansPosts | backend/controllers/user.controller.js:43-51 | the user's posts and comments stay, their author id naming nobody |
| UserController.DeleteUser | backend/controllers/user.controller.js:43-51 | the handler's steps end in `DeleteUserOutcome` |
| TextType.Next | frontend/src/components/TextType.jsx:27-82 | a step keeps the index in range and the banner showing a prefix of the current text (exactly the typed part while typing); a finished banner stays as it is; looping over several texts never finishes |
| TextType.TypesOut | frontend/src/components/TextType.jsx:54-58 | from `k` typed characters the rest is typed in `|text| - k` steps |
| TextType.DeletesOut | frontend/src/components/TextType.jsx:48-51 | `k` shown characters are deleted in `k` steps |
| TextType.SingleTextCompletes | frontend/src/components/TextType.jsx:76-79 | a single text is typed out and the banner then finishes, showing it, for good |
| TextType.StaysComplete | frontend/src/components/TextType.jsx:28 | once finished, any number of steps changes nothing |
| TextType.LoopNeverCompletes | frontend/src/components/TextType.jsx:59-63 | with several texts and looping on, the banner never finishes |
| TextType.LoopCycle | frontend/src/components/TextType.jsx:33-63 | looping, each text is typed, deleted and followed by the next (the first after the last) in `2|text| + 2` steps |
| TextType.NoLoopAdvance | frontend/src/components/TextType.jsx:64-71 | not looping, each text but the last is typed and replaced by the next in `|text| + 1` steps |
| TextType.NoLoopCompletes | frontend/src/components/TextType.jsx:64-75 | not looping, the banner shows every text in turn and finishes showing the last |
| TextType.TypeWriter.constructor | frontend/src/components/TextType.jsx:18-25 | the banner starts with nothing shown at the first text |
| TextType.TypeWriter.Step | frontend/src/components/TextType.jsx:30-82 | a step performs `Next` and reports a call of `onComplete` exactly when it finishes the banner |
| ClientPosts.Normalize | frontend/src/pages/HomePage.jsx:20-24 | every other field is kept, and `likes`/`likesCount` default to `[]`/`0` when falsy |
| ClientPosts.NormalizeIdempotent | frontend/src/pages/HomePage.jsx:20-24 | normalising twice is normalising once; a post with truthy like fields is unchanged |
| ClientPosts.Feed | frontend/src/pages/HomePage.jsx:19-26 | the shown list is a permutation of the normalised posts, sorted newest first |
| ClientPosts.FeedContents | frontend/src/pages/HomePage.jsx:19-26 | the shown list holds a normalised copy of each fetched post and nothing else |
| ClientPosts.Merge | frontend/src/pages/HomePage.jsx:52-57 | the reply's fields overlay the post's, and the like fields come from the reply alone |
| ClientPosts.ReplaceById | frontend/src/pages/HomePage.jsx:50-60 | same length; posts with the id are merged with the reply, the others kept |
| ClientPosts.ReplaceKeepsList | frontend/src/pages/HomePage.jsx:50-60 | for a reply about that post, every position keeps its id and other posts stay as they were, in order |
| ClientPosts.ByAuthor | frontend/src/pages/AccPage.jsx:26-27 | exactly the posts whose `userId` is the user's, in their order |
| ClientPosts.RemoveById | frontend/src/pages/AccPage.jsx:95-97 | every post with the id goes; every other stays as often as it was, in order |
| ClientPosts.RemoveLaws | frontend/src/pages/AccPage.jsx:96 | removing an absent id changes nothing; removing twice is removing once |
| ClientPosts.IsPostLiked | frontend/src/pages/HomePage.jsx:69-71 | the heart is filled exactly when a signed-in user's id is among the post's likes |
| ClientPosts.LikeClick | frontend/src/pages/HomePage.jsx:38-47 | a request goes out only from a signed-in user on a post without the flag set, to that post's like path; other posts' flags are untouched |
| ClientPosts.LikeSettled | frontend/src/pages/HomePage.jsx:64-66 | when the like settles, the flag is off and others are untouched |
| ClientPosts.LikeInFlight | frontend/src/pages/HomePage.jsx:38-66 | while a like is in flight, clicks on that post send nothing; once settled, the next click sends again |
| HomePage.HomeFeed.constructor | frontend/src/pages/HomePage.jsx:9-12 | empty list, loading, no flags |
| HomePage.HomeFeed.FetchPosts | frontend/src/pages/HomePage.jsx:14-36 | a successful reply is shown as `Feed`; loading stops on every path |
| HomePage.HomeFeed.StartLike | frontend/src/pages/HomePage.jsx:38-47 | performs `LikeClick` and captures the list as it is at the click |
| HomePage.HomeFeed.FinishLike | frontend/src/pages/HomePage.jsx:49-66 | a successful reply is merged into the captured list, not the current one; the flag is cleared |
| AccPage.AccountPage.constructor | frontend/src/pages/AccPage.jsx:10-12 | empty list, loading, no flags, no navigation |
| AccPage.AccountPage.Mount | frontend/src/pages/AccPage.jsx:14-44 | without a user: go to `/login`, fetch nothing; otherwise show the user's own posts as `Feed` and stop loading |
| AccPage.AccountPage.StartLike | frontend/src/pages/AccPage.jsx:51-63 | performs `LikeClick` |
| AccPage.AccountPage.FinishLike | frontend/src/pages/AccPage.jsx:65-85 | a successful reply is merged into the list as it is when the reply arrives; the flag is cleared |
| AccPage.AccountPage.HandleDelete | frontend/src/pages/AccPage.jsx:91-98 | a successful delete removes the posts with that id from the list |
| UserProfilePage.LoadError | frontend/src/pages/UserProfilePage.jsx:24-57 | the shown error: the thrown message, `Failed to fetch user profile`, `User not found`, `Failed to fetch user posts`, or the reply's message or `Failed to fetch posts` |
| UserProfilePage.LoadProfile | frontend/src/pages/UserProfilePage.jsx:18-66 | nothing happens without a username; otherwise loading stops, there is no error exactly when both fetches succeed, the name only follows a found profile and the posts only a fetched list (as `Feed`) |
| UserProfilePage.MissingProfileShowsNoPosts | frontend/src/pages/UserProfilePage.jsx:30-54 | a profile not found keeps the posts and reports `User not found` |
| UserProfilePage.ProfilePage.constructor | frontend/src/pages/UserProfilePage.jsx:9-13 | no profile, no posts, no error, loading, no flags |
| UserProfilePage.ProfilePage.Load | frontend/src/pages/UserProfilePage.jsx:18-66 | performs `LoadProfile`; the posts are requested only after a found profile, by its id; the header count becomes the fetched list's length when both fetches succeed and is kept otherwise |
| UserProfilePage.ProfilePage.StartLike | frontend/src/pages/UserProfilePage.jsx:68-80 | performs `LikeClick`, captures the list at the click and keeps the header count |
| UserProfilePage.ProfilePage.FinishLike | frontend/src/pages/UserProfilePage.jsx:82-101 | a successful reply is merged into the captured list; the flag is cleared; the header count is kept when the captured list had the shown length |

## Left out

- Mongoose, MongoDB and the driver:
  - Ids are strings, and an id is well formed when it has 24 hex digits.
  - The 12-character form `isValid` also accepts is left out.
  - Ids are compared as strings, with no case folding of hex digits.
  - Every query is one step on a map.
  - A failing store is the `StoreStatus` parameter.
  - A failure after the first write (for example the author save in
    `createPost`, or one half of the two saves of `likePost`) is not modelled.
  - The `ValidationError` branch of `createPost` cannot be reached once every
    field is truthy, and is not modelled.
- Serialisation:
  - The like reply carries the saved post and the total as two fields;
    spreading the document into one JSON object is not modelled.
  - The client model starts from JSON objects.
  - String lengths count characters, not UTF-16 code units.
- PostController.LikePostOutcome: the validation message is written in
  Mongoose's format for `required` errors (the model name, then one entry per
  empty path in schema order). Mongoose is not part of this model, so the text
  is an assumption about it. Values of the wrong type that an update can store
  are not modelled, so a cast error there is not modelled either.
- `likePost` repairs a post without `likes` and an author whose total is not
  a number (post.controller.js:297-318). In this model those fields always
  exist and the total is an integer, so the repair is not modelled.
- Concurrency: requests are one at a time.
  - Lost updates between two likes are not modelled.
  - Overlapping like handlers in the pages are not modelled.
  - `Promise.all` is treated as both saves applied when both validate. When
    `post.save()` rejects, the author's save may still complete; the model writes neither.
- AWS S3:
  - The client, its configuration and the unused `uploadImageToS3` helper are not modelled.
  - The upload call is one request plus a reply parameter; its location and key come from that reply.
  - The environment variables are three optional strings.
- Time: `Date.now()` and the store's timestamps are parameters.
  - Client dates are integers; a missing or non-numeric date sorts as 0.
  - The `NaN` ordering of invalid dates in JavaScript's sort is not modelled.
- ClientPosts.IsPostLiked: a truthy `likes` that is not an array makes the
  source throw; the model answers false.
- AccPage.AccountPage.HandleDelete:
  - Only the list update is modelled.
  - The source calls `apiRequest` without importing it, so the click fails with a reference error.
  - The request also leaves out the `userId` that `deletePost` requires.
- TextType.TypeWriter.constructor: an empty text array is excluded, because
  the source reads the length of `undefined` there.
- TextType: timers, `initialDelay`, the cursor, class names and `onComplete`'s
  effects are left out; one `Step` is one call of the animation function.
- createUser hands the whole body to `new User` (mass assignment). The
  schema's fields a body can preset (`posts`, `totalLikesReceived`,
  `createdAt`, `bio`, `profileImage`) are modelled. Left out: a preset `_id`,
  `updatedAt`, fields outside the schema (Mongoose drops them), and values of
  the wrong type other than a post id that does not cast.
- UserController.CreatedUserFresh: a preset `createdAt` is taken to survive
  the `timestamps` option, which is not modelled.
- The page rendering, navigation other than the account page's redirect,
  `API_BASE_URL` and the fetch wrappers are left out.
- The login, leaderboard and lookup-by-username routes name handlers that do
  not exist; they are not modelled.
