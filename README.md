# A verified model of the social backend's controllers

This project models, in Dafny, the decision and mutation logic of a small Express/MongoDB
social network backend:

- the authentication handlers: `signup`, `login`, `logout` and `getUser`;
- the `authenticateJWT` gate that runs before every authenticated handler;
- the user handlers: `getUserProfile`, `followUnfollowUser`, `getSuggestedUsers` and `updateUser`;
- the post handlers: `createPost`, `deletePost`, `commentOnPost`, `likeUnlikePost` and the four
  listings `getAllPosts`, `getFollowingPosts`, `getUserPosts` and `getLikedPosts`.

The MongoDB collections become one in-memory store, the class `Database.Db`. It holds:

- a map from user id to `User`;
- a map from post id to `Post`;
- the sequence of notifications;
- an id counter shared by users and posts;
- a clock standing in for `createdAt`.

`followers`, `following`, `likes`, `likedPosts` and `comments` are sequences. Mongo's `$push`
appends to them, and `$pull` (`Seqs.Pull`) removes every occurrence.

The handlers that write, and the order of their checks:

- `CreatePost` adds a post.
- `DeletePost` checks that the post exists, then that the caller owns it, then removes it.
- `CommentOnPost` checks the text, then looks the post up, then appends the comment.
- `LikeUnlikePost` and `FollowUnfollowUser` change two documents together.
- `Signup` adds an account.
- `UpdateUser` checks the password change, then replaces the images, then takes each supplied
  field over the stored one.

Each of these is a module-level method that takes the store `db: Db` and `modifies db`. Its
contract gives the answer and the whole new state for every branch. Every such method keeps
`Db.Valid()`, which requires:

- every document is stored under its own id, and every id is below the counter;
- every id in `following`, `followers` and `likes`, and every post's author, is a stored user;
- every id in `likedPosts` is below the counter (it may name a deleted post, since deleting a
  post does not touch `likedPosts`); comment authors are not constrained;
- the follow relation is mirrored (`b` is in `a.following` exactly when `a` is in `b.followers`);
- the like relation is mirrored (`u` is in `p.likes` exactly when `p` is in `u.likedPosts`);
- usernames and emails are unique.

The read-only handlers, the validation chains and the string helpers are functions:

- the email regular expression `^[^\s@]+@[^\s@]+\.[^\s@]+$`;
- the Cloudinary image-id derivation `url.split("/").pop().split(".")[0]`.

A request field that is missing or empty is the empty string, as JavaScript's falsiness
treats both alike. `bcrypt.hash`, `bcrypt.compare`, `jwt.verify` and the Cloudinary upload are
function parameters. A Cloudinary `destroy` call is reported as the image id the handler hands
to it (`released`).

## Model

| member | source | states |
|---|---|---|
| Seqs.Pull | backend/controllers/user.controller.js:42-43 | `$pull` removes every occurrence of the value and nothing else: the multiset loses exactly that value and all other members stay |
| Seqs.PullAfterPush | backend/controllers/user.controller.js:42-49 | pulling a value just pushed onto an array that did not hold it gives back the array exactly, order included |
| Seqs.Filter | backend/controllers/user.controller.js:76 | `filter` keeps exactly the elements satisfying the predicate, each as often as it occurs, and takes nothing new |
| EmailFormat.RegexMatchHasShape | backend/controllers/auth.controller.js:20 | a string the regex matches has no whitespace, exactly one '@', a non-empty local part, and a '.' after the '@' that is neither first nor last there |
| EmailFormat.ShapeHasRegexMatch | backend/controllers/auth.controller.js:20 | conversely, any such string is matched by the regex |
| EmailFormat.EmailRegexCharacterized | backend/controllers/auth.controller.js:20-23 | the regex test holds if and only if the string has the shape above |
| EmailFormat.RejectsAddressWithoutAt | backend/controllers/auth.controller.js:20-23 | "testemail" fails the email check |
| EmailFormat.AcceptsTestAddress | backend/controllers/auth.controller.js:20-23 | "test1@example.com" passes the email check |
| ImageIds.Split | backend/controllers/post.controllers.js:50 | JavaScript `split` on one character: never empty, no piece holds the separator, and every character of a piece comes from the string |
| ImageIds.JoinSplit | backend/controllers/post.controllers.js:50 | joining the pieces of `split` with the separator gives back the string |
| ImageIds.ImageId | backend/controllers/post.controllers.js:50 | the derived image id contains neither '/' nor '.' |
| ImageIds.ImageIdIsStem | backend/controllers/post.controllers.js:50 | for a URL `dir/stem.ext` (stem and ext without '/' or '.'), the image id is the stem |
| ImageIds.CloudinaryUrlExample | backend/controllers/user.controller.js:144 | a Cloudinary URL ending in `/v1/sample.jpg` gives the id "sample" |
| Relations.ToggleFollow | backend/controllers/user.controller.js:38-52 | follow/unfollow flips the target's membership in the caller's `following` and the caller's in the target's `followers`; no other user and no other field changes, and other members keep their membership |
| Relations.ToggleLike | backend/controllers/post.controllers.js:101-111 | the like toggle on values: pull both sides when the caller already likes the post, push both otherwise; what it changes is stated by `Relations.ToggleLikeEffect` |
| UserController.ApplyUpdate | backend/controllers/user.controller.js:138-167 | the document `updateUser` saves; what it keeps and what it takes over is stated by `UserController.ApplyUpdateFrame` and `UserController.ApplyUpdateCoalesces` |
| EmailFormat.EmailRegexTest | backend/controllers/auth.controller.js:20 | the regex test, written as a split into token '@' token '.' token; `EmailFormat.EmailRegexCharacterized` gives its meaning |
| PostController.RejectsPost | backend/controllers/post.controllers.js:17 | the `!text && img` guard; `PostController.CreatePostGuardAsWritten` states which posts it turns away |
| Database.FindByUsername | backend/controllers/auth.controller.js:25 | `findOne({ username })`: a found id is stored and has that username, and none is found exactly when no stored user with an id below the counter has it |
| Database.FindByEmail | backend/controllers/auth.controller.js:30 | `findOne({ email })`: a found id is stored and has that email, and none is found exactly when no stored user with an id below the counter has it |
| UserController.ClashesWithOthers | backend/controllers/user.controller.js:169 | the save breaks a unique index exactly when another stored user holds the new username or email; `UserController.UpdateUser` answers 500 then |
| Models.Public | backend/controllers/user.controller.js:10 | the stored user without the password (`select("-password")`, and the nulled password at lines 79 and 171); `AuthController.AnswersIgnorePassword` proves it does not read the password |
| AuthController.SignupView | backend/controllers/auth.controller.js:54-64 | the fields a successful signup answers, without the password; covered by `AuthController.AnswersIgnorePassword` |
| AuthController.LoginView | backend/controllers/auth.controller.js:101-110 | the fields a successful login answers, without password and link; covered by `AuthController.AnswersIgnorePassword` |
| Relations.ToggleLikeEffect | backend/controllers/post.controllers.js:101-111 | like/unlike changes only the caller's `likedPosts` and the post's `likes`, flipping the caller's or post's membership in both and keeping every other member |
| Relations.ToggleFollowKeepsMirror | backend/controllers/user.controller.js:38-52 | a follow toggle keeps the follow relation mirrored between `following` and `followers` |
| Relations.ToggleFollowFlipsOnePair | backend/controllers/user.controller.js:38-52 | a follow toggle adds or removes exactly the pair (caller, target) of the follow relation |
| Relations.ToggleFollowTwiceRestores | backend/controllers/user.controller.js:40-52 | follow then unfollow, starting from not following, gives back every user document exactly |
| Relations.ToggleFollowTwiceSameRelation | backend/controllers/user.controller.js:40-52 | two follow toggles from any state give back the same follow relation |
| Relations.ToggleLikeKeepsMirror | backend/controllers/post.controllers.js:101-111 | a like toggle keeps the like relation mirrored between `likes` and `likedPosts` |
| Relations.ToggleLikeFlipsOnePair | backend/controllers/post.controllers.js:101-111 | a like toggle adds or removes exactly the pair (caller, post) of the like relation |
| Relations.PullUndoesLikePush | backend/controllers/post.controllers.js:105-111 | the two `$pull`s undo the two `$push`es of a like |
| Relations.ToggleLikeTwiceRestores | backend/controllers/post.controllers.js:103-111 | like then unlike, starting from not liked, gives back the users and the posts exactly |
| Relations.ToggleLikeTwiceSameRelation | backend/controllers/post.controllers.js:103-111 | two like toggles from any state give back the same like relation |
| Relations.ToggleLikeTwiceMayReorder | backend/controllers/post.controllers.js:105-110 | unlike then like moves the caller to the end of `likes`: [caller, other] becomes [other, caller] |
| Database.InsertUserKeepsConsistent | backend/controllers/auth.controller.js:43-52 | storing a new account with fresh username and email and no relations keeps the store consistent |
| Database.ReplaceProfileKeepsConsistent | backend/controllers/user.controller.js:161-169 | replacing a user's profile fields, relations untouched, without clashing usernames or emails keeps the store consistent |
| Database.InsertPostKeepsConsistent | backend/controllers/post.controllers.js:25-31 | storing a new post by an existing user, with no likes, under the next id and clock keeps the store consistent |
| Database.ReplaceCommentsKeepsConsistent | backend/controllers/post.controllers.js:76-82 | replacing a post's comments keeps the store consistent |
| Database.RemovePostKeepsConsistent | backend/controllers/post.controllers.js:53 | removing a post keeps the store consistent |
| Database.ToggleFollowKeepsConsistent | backend/controllers/user.controller.js:38-52 | a follow toggle keeps the store consistent |
| Database.ToggleLikeKeepsConsistent | backend/controllers/post.controllers.js:101-111 | a like toggle keeps the store consistent |
| Database.FindUser | backend/controllers/auth.controller.js:25 | `findOne` gives the first matching user in id order, and none only when no user in range matches |
| Database.PostsBelow | backend/controllers/post.controllers.js:129 | `Post.find()` lists exactly the stored posts with an id below the bound, in increasing id order |
| Database.ConsistentIdsBelow | backend/controllers/post.controllers.js:129 | in a consistent store every post id is below the id counter |
| Database.PostsBelowIsStore | backend/controllers/post.controllers.js:129 | when every post id is below the bound, `Post.find()` lists exactly the stored posts |
| AuthMiddleware.Authenticate | backend/middleware/authenticateJWT.js:4-30 | no token gives 401 "Unauthorized: No token provided"; a throwing verify gives 500; a falsy decode gives 401 "Unauthorized: Invalid token"; an unknown or missing userId gives 401 "User not found"; the handler runs if and only if the token verifies to a stored user, and `req.user` is that user |
| AuthMiddleware.DecisionBeforeLookupIgnoresStore | backend/middleware/authenticateJWT.js:6-15 | until a token has verified to a payload, the gate rejects, whatever the store holds |
| AuthController.FindByUsernameFinds | backend/controllers/auth.controller.js:25-26 | the username lookup finds a user if and only if some stored user has that username |
| AuthController.FindByEmailFinds | backend/controllers/auth.controller.js:30-31 | the email lookup finds a user if and only if some stored user has that email |
| AuthController.SignupError | backend/controllers/auth.controller.js:20-39 | each signup error is answered exactly when every earlier check passes and its own check fails: email format, then username taken, then email taken, then password shorter than 6; no error exactly when all pass |
| AuthController.PasswordLengthBoundary | backend/controllers/auth.controller.js:35-39 | a 5-character password is refused with "Password must be at least 6 characters" and a 6-character one accepted |
| AuthController.SignupKeepsAccountsUnique | backend/controllers/auth.controller.js:25-33 | after a signup that passes every check, usernames and emails are still unique |
| AuthController.Signup | backend/controllers/auth.controller.js:17-64 | a failing check answers 400 with its message and leaves the store and cookie untouched; otherwise exactly one user is added under the next id with hash(password), the given names and email, and empty relations, the session cookie is set for 15 days, and 201 carries the public fields without the password |
| AuthController.Login | backend/controllers/auth.controller.js:85-110 | success exactly when the username is found and the password compares equal to its hash; the answer is then that user's login fields, without the password, and the cookie is set for that user; every failure is the same 400 "Invalid username or password" |
| AuthController.LoginFailuresIndistinguishable | backend/controllers/auth.controller.js:88-97 | an unknown username and a wrong password give the identical answer |
| AuthController.Logout | backend/controllers/auth.controller.js:125-128 | logout clears the cookie and succeeds with status 200 |
| AuthController.GetUser | backend/controllers/auth.controller.js:142-146 | 200 with the caller's whole document without the password when it is stored, and a null body otherwise |
| AuthController.AnswersIgnorePassword | backend/controllers/auth.controller.js:54-64 | the public projection and the signup and login answers do not depend on the stored password |
| UserController.GetUserProfile | backend/controllers/user.controller.js:6-16 | 200 with a stored user of that username, password removed, if and only if the username is taken; 404 "User not found" otherwise |
| UserController.FollowUnfollowUser | backend/controllers/user.controller.js:24-52 | a missing target is 404 before a self-follow is 400, both leaving the store unchanged; otherwise the users become `ToggleFollow` of the old ones, the message says which way it went, and no notification or post changes |
| UserController.FollowThenUnfollowScenario | backend/controllers/user.controller.js:38-52 | following u2 from [u3] gives [u3, u2], and unfollowing gives [u3] back |
| UserController.GetSuggestedUsers | backend/controllers/user.controller.js:59-81 | at most four users, never the caller nor anyone the caller follows, and exactly the first four of the sampled candidates that the caller does not follow, without passwords |
| UserController.PasswordChangeError | backend/controllers/user.controller.js:119-137 | exactly one of the two passwords gives "Please provide both current and new passwords"; then a failing compare gives "Incorrect current password"; then a new password shorter than 6 gives the length error; no error exactly when neither is given or the pair is valid |
| UserController.ReleasedImages | backend/controllers/user.controller.js:141-159 | the old profile image's id, then the old cover image's id, each exactly when a new image of that kind is supplied and an old one is stored; nothing else is destroyed, and each id is bare |
| UserController.ApplyUpdateFrame | backend/controllers/user.controller.js:138-171 | an update never touches the id or the relation arrays, and an empty request leaves the document exactly as it was |
| UserController.ApplyUpdateCoalesces | backend/controllers/user.controller.js:161-167 | every supplied text field replaces the stored one and every omitted field keeps it; a supplied image becomes the uploaded URL (when the upload gives one); the password becomes the hash of the new one when both passwords are given, and stays otherwise |
| UserController.UpdateUser | backend/controllers/user.controller.js:106-173 | 404 for an unknown caller; a password error answers 400 with no image destroyed and nothing saved; otherwise the old images of replaced ones are destroyed, a username or email clash fails the save, and a clean save stores exactly the coalesced document and answers it without the password |
| PostController.CreatePostGuardAsWritten | backend/controllers/post.controllers.js:17-19 | the guard rejects a post with an image and no text, and lets a post with neither through |
| PostController.CreatePost | backend/controllers/post.controllers.js:6-33 | 404 for an unknown author, then 400 by the guard above, both leaving posts, counter and clock unchanged; otherwise exactly one post is added under a fresh id, owned by the caller, with the uploaded image, no likes or comments, stamped with the clock, and every existing post is unchanged |
| PostController.DeletePost | backend/controllers/post.controllers.js:40-54 | 404 for a missing post, then 401 for a post the caller does not own, both leaving the store unchanged; otherwise the post's image id is destroyed and exactly that post is removed |
| PostController.CommentOnPost | backend/controllers/post.controllers.js:61-84 | empty text is 400 even for a missing post, then a missing post is 404, both leaving the store unchanged; otherwise the comment is appended after the existing ones and the whole post is answered |
| PostController.LikeUnlikePost | backend/controllers/post.controllers.js:91-120 | 404 for a missing post; otherwise users and posts become `ToggleLike` of the old ones, and exactly one "like" notification to the post's owner is added when liking and none when unliking |
| PostController.InsertByDate | backend/controllers/post.controllers.js:130 | inserting into a newest-first list keeps it newest first and adds exactly that post |
| PostController.SortNewestFirst | backend/controllers/post.controllers.js:130 | `.sort({ createdAt: -1 })` gives the same posts, newest first |
| Seqs.PullAppend | backend/controllers/user.controller.js:42-43 | pulling from a concatenation pulls from each part, so `$pull` keeps the order of what remains |
| Seqs.FilterAppend | backend/controllers/user.controller.js:76 | filtering a concatenation is the concatenation of the filtered parts, so kept elements stay in their order |
| PostController.PostsBelowOnce | backend/controllers/post.controllers.js:129 | `Post.find()` lists every stored post at most once |
| PostController.SelectionOncePerId | backend/controllers/post.controllers.js:159-210 | any selection of the posts `find` lists, in any order, repeats no post id |
| PostController.GetAllPosts | backend/controllers/post.controllers.js:127-144 | every stored post exactly once (no id repeated), newest first |
| PostController.GetFollowingPosts | backend/controllers/post.controllers.js:176-196 | 404 if and only if the caller is unknown; otherwise exactly the stored posts whose author the caller follows, each once, newest first |
| PostController.GetUserPosts | backend/controllers/post.controllers.js:203-220 | 404 if and only if no user has the username; otherwise exactly that user's stored posts, each once, newest first |
| PostController.GetLikedPosts | backend/controllers/post.controllers.js:151-169 | 404 if and only if the caller is unknown; otherwise exactly the stored posts whose id the caller's `likedPosts` holds, each once |

## Source and its tests disagree

The model follows the code wherever the code and its tests disagree:

- **createPost guard.** `createPost` refuses a post when it has an image and no text
  (`backend/controllers/post.controllers.js:17`). A post with neither passes the guard and is
  stored. The tests in `backend/controllers/post.controller.test.js:113-151` expect the
  opposite rule. `PostController.CreatePostGuardAsWritten` states the rule as coded.
- **likeUnlikePost answer.** `likeUnlikePost` answers a message
  (`backend/controllers/post.controllers.js:107,119`). The test at
  `backend/controllers/post.controller.test.js:231-243` expects the likes array.
- **commentOnPost answer.** `commentOnPost` answers the whole post
  (`backend/controllers/post.controllers.js:84`). The test at
  `backend/controllers/post.controller.test.js:187` expects the comment array.
- **Malformed token answer.** For a token that `jwt.verify` rejects, the gate answers 500 with
  `{ error: "Internal server error" }` only (`backend/middleware/authenticateJWT.js:26-29`).
  The test at `backend/middleware/authenticateJWT.test.js:84` also expects
  `message: "jwt malformed"`. `AuthMiddleware.Authenticate` answers as the code does.
- **Follow notification.** Following records no notification:
  `backend/controllers/user.controller.js` never creates one. `FollowUnfollowUser` ensures
  that the notifications are unchanged.

## Left out

- Relations.ToggleLikeTwiceRestores: exact restoration is proved only when the first toggle
  likes. Unliking removes the caller from the middle of `likes` and liking again appends it, so
  the order can change. `Relations.ToggleLikeTwiceMayReorder` shows this, and
  `Relations.ToggleLikeTwiceSameRelation` proves that the relation itself always comes back.
- Relations.ToggleFollowTwiceRestores: for the same reason, exactly restored only when starting
  from not following; `Relations.ToggleFollowTwiceSameRelation` covers every state.
- UserController.FollowUnfollowUser, PostController.LikeUnlikePost, UserController.GetSuggestedUsers:
  they require the caller to be stored. The gate has just resolved the caller from the store, and
  the handlers do not check again. Without the user, `followUnfollowUser` would throw on
  `currentUser.following` and `getSuggestedUsers` on `usersFollowedByCurrentUser.following`
  (`backend/controllers/user.controller.js:76`); both would answer 500.
- PostController.GetAllPosts, GetFollowingPosts, GetUserPosts, GetLikedPosts: they require every
  stored post id to be below the bound, as the id counter of a consistent store guarantees
  (`Database.ConsistentIdsBelow`); the bound stands for the end of the collection scan.
- UserController.GetSuggestedUsers: the `$match`/`$sample` aggregation is random. The sample is
  an input: at most ten distinct stored users other than the caller.
- UserController.UpdateUser: the save's failure under the unique username and email indexes is
  modelled as a 500 whose message is the duplicate-key code alone, not MongoDB's full text. The
  user schema (`backend/models/user.model.js`) is not part of this model. Its indexes are
  assumed unique on username and email, and its defaults are taken as empty strings and arrays.
- AuthController.Signup: the schema's `required` validators are not modelled. A signup with an
  empty `username` or `fullName` is stored and answered 201 by the model. The source may instead
  fail at `newUser.save()` (`backend/controllers/auth.controller.js:52`) and answer 500, after the
  cookie was already set at line 51.
- The 500 answers of the handlers' `catch` blocks are not modelled, nor is the logging. The
  gate's 500 on a throwing `jwt.verify` is modelled. Besides store and network failures, these
  blocks also catch errors thrown by a request that lacks a field. Because the model reads a
  missing field as "", such a request gets a different answer in the model:
  - AuthController.Signup: with no `password` field, `password.length` throws and the source
    answers 500 "Internal server error". The model answers 400 "Password must be at least 6
    characters" (when the earlier checks pass).
  - AuthController.Login: with no `password` field, `bcrypt.compare` rejects the non-string
    argument and the source answers 500. The model compares "" and answers 400 "Invalid
    username or password".
  - AuthController.Signup, AuthController.Login: a missing `username` or `email` reaches
    `findOne` as `undefined`. What that query matches depends on the driver and is not modelled;
    the model looks the empty string up instead.
- `signup`'s `else` branch ("Error creating user") is not modelled: `new User(...)` always
  returns an object, so the branch cannot run.
- `populate` of `user` and `comments.user` is not modelled. The listings answer the stored posts
  with ids in place of the embedded documents.
- Token signing (`jwt.sign`, `expiresIn`) and the cookie options are not modelled. The cookie is
  `SetJwt(user, maxAge)` with the 15-day `maxAge`, or `Cleared`.
- `bcrypt`, `jwt.verify` and Cloudinary `upload` are parameters; Cloudinary `destroy` is not
  modelled beyond the ids it is given.
- Notification timestamps and `read` flags are not modelled. `createdAt` is a counter that every
  new post advances. Users and posts share one id counter.
- Concurrency is not modelled. Each handler is one atomic step, although the source awaits its
  two paired updates separately.
- String length is the number of characters, not UTF-16 code units. Request fields that are
  `undefined` are the empty string, and non-string field values are not modelled.
