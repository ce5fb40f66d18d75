/** The profile, follow/unfollow, suggestion and profile-update handlers. */
module UserController {
  import opened Wrappers
  import opened Models
  import opened Seqs
  import opened Database
  import opened Relations
  import opened ImageIds
  import AuthController

  /** `getUserProfile`: look a username up and answer its document without the password. */
  function GetUserProfile(users: map<UserId, User>, bound: nat, username: string): (r: Response<PublicUser>)
    requires UsersIndexed(users, bound)
    ensures r.Success? <==> AuthController.UsernameTaken(users, username)
    ensures r.Failure? ==> r == Failure(404, "User not found")
    ensures r.Success? ==> r.status == 200 && r.value.id in users && r.value == Public(users[r.value.id])
                           && r.value.username == username
  {
    AuthController.FindByUsernameFinds(users, bound, username);
    match FindByUsername(users, bound, username)
    case None => Failure(404, "User not found")
    case Some(id) => Success(200, Public(users[id]))
  }

  /**
   * `followUnfollowUser`: a missing target is reported before a self-follow; otherwise the
   * caller's `following` and the target's `followers` are toggled together. No
   * notification is recorded.
   */
  method FollowUnfollowUser(db: Db, caller: UserId, target: UserId) returns (r: Response<string>)
    requires db.Valid() && caller in db.users
    modifies db
    ensures db.Valid()
    ensures db.posts == old(db.posts) && db.notifications == old(db.notifications)
    ensures db.nextId == old(db.nextId) && db.clock == old(db.clock)
    ensures target !in old(db.users) ==> r == Failure(404, "User not found") && db.users == old(db.users)
    ensures target in old(db.users) && target == caller ==>
              r == Failure(400, "You cannot follow/unfollow yourself") && db.users == old(db.users)
    ensures target in old(db.users) && target != caller ==>
              && db.users == ToggleFollow(old(db.users), caller, target)
              && r == Success(200, if target in old(db.users)[caller].following
                                   then "User unfollowed successfully" else "User followed successfully")
  {
    if target !in db.users {
      return Failure(404, "User not found");
    }
    if target == caller {
      return Failure(400, "You cannot follow/unfollow yourself");
    }
    ToggleFollowKeepsConsistent(db.users, db.posts, db.nextId, db.clock, caller, target);
    var me, them := db.users[caller], db.users[target];
    if target in me.following {
      db.users := db.users[caller := me.(following := Pull(me.following, target))];
      db.users := db.users[target := them.(followers := Pull(them.followers, caller))];
      r := Success(200, "User unfollowed successfully");
    } else {
      db.users := db.users[caller := me.(following := me.following + [target])];
      db.users := db.users[target := them.(followers := them.followers + [caller])];
      r := Success(200, "User followed successfully");
    }
  }

  /** The test's scenario: following u2 from [u3] gives [u3, u2], and unfollowing gives [u3] back. */
  lemma FollowThenUnfollowScenario(users: map<UserId, User>, u1: UserId, u2: UserId, u3: UserId)
    requires u1 in users && u2 in users && u1 != u2 && u2 != u3
    requires users[u1].following == [u3]
    ensures ToggleFollow(users, u1, u2)[u1].following == [u3, u2]
    ensures ToggleFollow(ToggleFollow(users, u1, u2), u1, u2)[u1].following == [u3]
  {
    assert [u3] + [u2] == [u3, u2];
    PullAfterPush([u3], u2);
  }

  /**
   * `getSuggestedUsers`: `sample` is what the `$match` (not the caller) and `$sample`
   * (at most 10 distinct users) stages produced; drop those the caller follows, keep the
   * first four, and answer them with the password nulled. The store is not touched.
   */
  function GetSuggestedUsers(users: map<UserId, User>, caller: UserId, sample: seq<UserId>)
    : (r: seq<PublicUser>)
    requires caller in users && forall u | u in users :: users[u].id == u
    requires |sample| <= 10 && forall id | id in sample :: id in users && id != caller
    ensures |r| <= 4
    ensures forall x | x in r :: x.id != caller && x.id !in users[caller].following
    ensures var kept := Filter(sample, (id: UserId) => id !in users[caller].following);
            |r| == (if |kept| < 4 then |kept| else 4)
            && forall i | 0 <= i < |r| :: r[i] == Public(users[kept[i]])
  {
    var kept := Filter(sample, (id: UserId) => id !in users[caller].following);
    var suggested := if |kept| < 4 then kept else kept[..4];
    var r := seq(|suggested|, i requires 0 <= i < |suggested| => Public(users[suggested[i]]));
    assert forall i | 0 <= i < |r| :: r[i].id == suggested[i] && suggested[i] in kept;
    r
  }

  /** The fields `updateUser` reads from the request body; "" stands for a missing field. */
  datatype UpdateRequest = UpdateRequest(
    username: string,
    fullName: string,
    email: string,
    currentPassword: string,
    newPassword: string,
    bio: string,
    link: string,
    profileImg: string,
    coverImg: string)

  /** JavaScript's `a || b` on strings: `a` unless it is empty. */
  function Or(a: string, b: string): string {
    if a != "" then a else b
  }

  /**
   * The password checks of `updateUser`, in order: both or neither of the two passwords,
   * then the current password must match the stored hash, then the new one must be long enough.
   */
  function PasswordChangeError(current: string, proposed: string, stored: string, compare: (string, string) -> bool)
    : (r: Option<string>)
    ensures r == Some("Please provide both current and new passwords") <==> (current == "") != (proposed == "")
    ensures r == Some("Incorrect current password") <==>
              current != "" && proposed != "" && !compare(current, stored)
    ensures r == Some("Password must be at least 6 characters") <==>
              current != "" && proposed != "" && compare(current, stored) && |proposed| < 6
    ensures r == None <==> (current == "" && proposed == "") || (current != "" && compare(current, stored) && |proposed| >= 6)
  {
    if (proposed == "" && current != "") || (current == "" && proposed != "") then
      Some("Please provide both current and new passwords")
    else if current != "" && proposed != "" then
      if !compare(current, stored) then Some("Incorrect current password")
      else if |proposed| < 6 then Some("Password must be at least 6 characters")
      else None
    else None
  }

  /** The Cloudinary ids `updateUser` destroys: an old image is released only when a new one is supplied. */
  function ReleasedImages(old_: User, req: UpdateRequest): (ids: seq<string>)
    ensures var replacesProfile := req.profileImg != "" && old_.profileImg != "";
            var replacesCover := req.coverImg != "" && old_.coverImg != "";
            && |ids| == (if replacesProfile then 1 else 0) + (if replacesCover then 1 else 0)
            && (replacesProfile ==> ids[0] == ImageId(old_.profileImg))
            && (replacesCover ==> ids[|ids| - 1] == ImageId(old_.coverImg))
    ensures req.profileImg == "" && req.coverImg == "" ==> ids == []
    ensures forall id | id in ids :: '/' !in id && '.' !in id
  {
    (if req.profileImg != "" && old_.profileImg != "" then [ImageId(old_.profileImg)] else [])
    + (if req.coverImg != "" && old_.coverImg != "" then [ImageId(old_.coverImg)] else [])
  }

  /**
   * The document `updateUser` saves once the password checks pass: a new hash when both
   * passwords were given, uploaded images, and every supplied field in place of the stored one.
   */
  function ApplyUpdate(before: User, req: UpdateRequest, hash: string -> string, upload: string -> string): User {
    before.(
      password := if req.currentPassword != "" && req.newPassword != "" then hash(req.newPassword)
                  else before.password,
      fullName := Or(req.fullName, before.fullName),
      username := Or(req.username, before.username),
      email := Or(req.email, before.email),
      bio := Or(req.bio, before.bio),
      link := Or(req.link, before.link),
      profileImg := Or(if req.profileImg != "" then upload(req.profileImg) else "", before.profileImg),
      coverImg := Or(if req.coverImg != "" then upload(req.coverImg) else "", before.coverImg))
  }

  /**
   * An update never touches the id or the relation arrays, and a request that supplies no
   * field leaves the document exactly as it was.
   */
  lemma ApplyUpdateFrame(before: User, req: UpdateRequest, hash: string -> string, upload: string -> string)
    ensures var after := ApplyUpdate(before, req, hash, upload);
            after.id == before.id && after.followers == before.followers
            && after.following == before.following && after.likedPosts == before.likedPosts
    ensures req == UpdateRequest("", "", "", "", "", "", "", "", "") ==> ApplyUpdate(before, req, hash, upload) == before
  {
  }

  /** Every supplied text field wins over the stored one; every omitted field keeps its stored value. */
  lemma ApplyUpdateCoalesces(before: User, req: UpdateRequest, hash: string -> string, upload: string -> string)
    ensures var after := ApplyUpdate(before, req, hash, upload);
            && (req.fullName != "" ==> after.fullName == req.fullName)
            && (req.fullName == "" ==> after.fullName == before.fullName)
            && (req.username != "" ==> after.username == req.username)
            && (req.username == "" ==> after.username == before.username)
            && (req.email != "" ==> after.email == req.email)
            && (req.email == "" ==> after.email == before.email)
            && (req.bio != "" ==> after.bio == req.bio)
            && (req.bio == "" ==> after.bio == before.bio)
            && (req.link != "" ==> after.link == req.link)
            && (req.link == "" ==> after.link == before.link)
            && (req.profileImg == "" ==> after.profileImg == before.profileImg)
            && (req.coverImg == "" ==> after.coverImg == before.coverImg)
            && (req.profileImg != "" && upload(req.profileImg) != "" ==> after.profileImg == upload(req.profileImg))
            && (req.coverImg != "" && upload(req.coverImg) != "" ==> after.coverImg == upload(req.coverImg))
            && (req.currentPassword != "" && req.newPassword != "" ==> after.password == hash(req.newPassword))
            && (req.currentPassword == "" || req.newPassword == "" ==> after.password == before.password)
  {
  }

  /** The message the unique indexes raise from `save` when a username or email is taken. */
  const DuplicateKeyError := "E11000 duplicate key error"

  /** Another account already holds `u`'s username or email. */
  predicate ClashesWithOthers(users: map<UserId, User>, u: User) {
    exists v | v in users && v != u.id :: users[v].username == u.username || users[v].email == u.email
  }

  /**
   * `updateUser`: run the password checks before touching anything; then replace images
   * (destroying the old ones), take each supplied field over the stored one, and save.
   * `compare`, `hash` and `upload` stand for bcrypt and Cloudinary.
   */
  method UpdateUser(db: Db, caller: UserId, req: UpdateRequest, compare: (string, string) -> bool,
                    hash: string -> string, upload: string -> string)
    returns (r: Response<PublicUser>, released: seq<string>)
    requires db.Valid()
    modifies db
    ensures db.Valid()
    ensures db.posts == old(db.posts) && db.notifications == old(db.notifications)
    ensures db.nextId == old(db.nextId) && db.clock == old(db.clock)
    ensures caller !in old(db.users) ==>
              r == Failure(404, "User not found") && released == [] && db.users == old(db.users)
    ensures caller in old(db.users) ==>
              var before := old(db.users)[caller];
              var err := PasswordChangeError(req.currentPassword, req.newPassword, before.password, compare);
              var after := ApplyUpdate(before, req, hash, upload);
              && (err.Some? ==> r == Failure(400, err.value) && released == [] && db.users == old(db.users))
              && (err.None? ==> released == ReleasedImages(before, req))
              && (err.None? && ClashesWithOthers(old(db.users), after) ==>
                    r == Failure(500, DuplicateKeyError) && db.users == old(db.users))
              && (err.None? && !ClashesWithOthers(old(db.users), after) ==>
                    r == Success(200, Public(after)) && db.users == old(db.users)[caller := after])
  {
    released := [];
    if caller !in db.users {
      return Failure(404, "User not found"), released;
    }
    ghost var before := db.users[caller];
    var user := db.users[caller];
    var err := PasswordChangeError(req.currentPassword, req.newPassword, user.password, compare);
    if err.Some? {
      return Failure(400, err.value), released;
    }
    if req.currentPassword != "" && req.newPassword != "" {
      user := user.(password := hash(req.newPassword));
    }
    var profileImg, coverImg := req.profileImg, req.coverImg;
    if profileImg != "" {
      if user.profileImg != "" {
        released := released + [ImageId(user.profileImg)];
      }
      profileImg := upload(profileImg);
    }
    if coverImg != "" {
      if user.coverImg != "" {
        released := released + [ImageId(user.coverImg)];
      }
      coverImg := upload(coverImg);
    }
    assert user == before.(password := user.password);
    assert released == ReleasedImages(before, req);
    user := user.(fullName := Or(req.fullName, user.fullName));
    user := user.(username := Or(req.username, user.username));
    user := user.(email := Or(req.email, user.email));
    user := user.(bio := Or(req.bio, user.bio));
    user := user.(link := Or(req.link, user.link));
    user := user.(profileImg := Or(profileImg, user.profileImg));
    user := user.(coverImg := Or(coverImg, user.coverImg));
    assert user == ApplyUpdate(before, req, hash, upload);
    // `save` goes through the unique indexes on username and email
    if ClashesWithOthers(db.users, user) {
      return Failure(500, DuplicateKeyError), released;
    }
    ReplaceProfileKeepsConsistent(db.users, db.posts, db.nextId, db.clock, user);
    db.users := db.users[caller := user];
    r := Success(200, Public(user));
  }
}
