/** The post handlers: create, delete, comment, like/unlike, and the four post listings. */
module PostController {
  import opened Wrappers
  import opened Models
  import opened Seqs
  import opened Database
  import opened Relations
  import opened ImageIds
  import AuthController

  /** The guard of `createPost` as written: no text, but an image. */
  predicate RejectsPost(text: string, img: string) {
    text == "" && img != ""
  }

  /**
   * The guard lets a post with neither text nor image through and turns an image-only post
   * away, although its message reads "Post must have text or image".
   */
  lemma CreatePostGuardAsWritten(img: string)
    requires img != ""
    ensures RejectsPost("", img)
    ensures !RejectsPost("", "")
    ensures forall text | text != "" :: !RejectsPost(text, img) && !RejectsPost(text, "")
  {
  }

  /**
   * `createPost`: the author must exist; the guard above answers 400; otherwise an uploaded
   * image replaces the given one and a new post with no likes and no comments is stored,
   * stamped with the clock.
   */
  method CreatePost(db: Db, caller: UserId, text: string, img: string, upload: string -> string)
    returns (r: Response<Post>)
    requires db.Valid()
    modifies db
    ensures db.Valid()
    ensures db.users == old(db.users) && db.notifications == old(db.notifications)
    ensures caller !in old(db.users) ==>
              r == Failure(404, "User not found") && db.posts == old(db.posts) && db.nextId == old(db.nextId)
              && db.clock == old(db.clock)
    ensures caller in old(db.users) && RejectsPost(text, img) ==>
              r == Failure(400, "Post must have text or image") && db.posts == old(db.posts)
              && db.nextId == old(db.nextId) && db.clock == old(db.clock)
    ensures caller in old(db.users) && !RejectsPost(text, img) ==>
              var id := old(db.nextId);
              var created := Post(id, caller, text, if img != "" then upload(img) else img, [], [], old(db.clock));
              && id !in old(db.posts)
              && r == Success(201, created)
              && db.posts == old(db.posts)[id := created]
              && db.nextId == id + 1 && db.clock == old(db.clock) + 1
  {
    if caller !in db.users {
      return Failure(404, "User not found");
    }
    if text == "" && img != "" {
      return Failure(400, "Post must have text or image");
    }
    var stored := img;
    if img != "" {
      stored := upload(img);
    }
    var id := db.nextId;
    var created := Post(id, caller, text, stored, [], [], db.clock);
    InsertPostKeepsConsistent(db.users, db.posts, db.nextId, db.clock, created);
    db.posts := db.posts[id := created];
    db.nextId, db.clock := id + 1, db.clock + 1;
    r := Success(201, created);
  }

  /**
   * `deletePost`: a missing post is 404, someone else's post is 401; otherwise its image is
   * released and exactly that post is removed.
   */
  method DeletePost(db: Db, caller: UserId, id: PostId) returns (r: Response<string>, released: seq<string>)
    requires db.Valid()
    modifies db
    ensures db.Valid()
    ensures db.users == old(db.users) && db.notifications == old(db.notifications)
    ensures db.nextId == old(db.nextId) && db.clock == old(db.clock)
    ensures id !in old(db.posts) ==>
              r == Failure(404, "Post not found") && released == [] && db.posts == old(db.posts)
    ensures id in old(db.posts) && old(db.posts)[id].user != caller ==>
              r == Failure(401, "Unauthorized") && released == [] && db.posts == old(db.posts)
    ensures id in old(db.posts) && old(db.posts)[id].user == caller ==>
              var img := old(db.posts)[id].img;
              && r == Success(200, "Post deleted successfully")
              && db.posts == old(db.posts) - {id}
              && released == (if img != "" then [ImageId(img)] else [])
  {
    released := [];
    if id !in db.posts {
      return Failure(404, "Post not found"), released;
    }
    var post := db.posts[id];
    if post.user != caller {
      return Failure(401, "Unauthorized"), released;
    }
    if post.img != "" {
      released := [ImageId(post.img)];
    }
    RemovePostKeepsConsistent(db.users, db.posts, db.nextId, db.clock, id);
    db.posts := db.posts - {id};
    r := Success(200, "Post deleted successfully");
  }

  /**
   * `commentOnPost`: empty text is refused before the post is looked up; otherwise the
   * comment is appended after the existing ones and the whole post is the answer.
   */
  method CommentOnPost(db: Db, caller: UserId, id: PostId, text: string) returns (r: Response<Post>)
    requires db.Valid()
    modifies db
    ensures db.Valid()
    ensures db.users == old(db.users) && db.notifications == old(db.notifications)
    ensures db.nextId == old(db.nextId) && db.clock == old(db.clock)
    ensures text == "" ==> r == Failure(400, "Text field is required") && db.posts == old(db.posts)
    ensures text != "" && id !in old(db.posts) ==> r == Failure(404, "Post not found") && db.posts == old(db.posts)
    ensures text != "" && id in old(db.posts) ==>
              var before := old(db.posts)[id];
              var after := before.(comments := before.comments + [Comment(caller, text)]);
              r == Success(200, after) && db.posts == old(db.posts)[id := after]
  {
    if text == "" {
      return Failure(400, "Text field is required");
    }
    if id !in db.posts {
      return Failure(404, "Post not found");
    }
    var post := db.posts[id];
    var comments := post.comments + [Comment(caller, text)];
    ReplaceCommentsKeepsConsistent(db.users, db.posts, db.nextId, db.clock, id, comments);
    post := post.(comments := comments);
    db.posts := db.posts[id := post];
    r := Success(200, post);
  }

  /**
   * `likeUnlikePost`: a missing post is 404; otherwise the caller's like is toggled on both
   * documents, and a like (not an unlike) notifies the post's owner.
   */
  method LikeUnlikePost(db: Db, caller: UserId, id: PostId) returns (r: Response<string>)
    requires db.Valid() && caller in db.users
    modifies db
    ensures db.Valid()
    ensures db.nextId == old(db.nextId) && db.clock == old(db.clock)
    ensures id !in old(db.posts) ==>
              r == Failure(404, "Post not found") && db.posts == old(db.posts) && db.users == old(db.users)
              && db.notifications == old(db.notifications)
    ensures id in old(db.posts) ==>
              var post := old(db.posts)[id];
              var liked := caller in post.likes;
              && (db.users, db.posts) == ToggleLike(old(db.users), old(db.posts), caller, id)
              && r == Success(200, if liked then "Post unliked successfully" else "Post liked successfully")
              && db.notifications == old(db.notifications)
                                     + (if liked then [] else [Notification(caller, post.user, Like)])
  {
    if id !in db.posts {
      return Failure(404, "Post not found");
    }
    var users, posts := db.users, db.posts;
    var post, me := posts[id], users[caller];
    if caller in post.likes {
      posts := posts[id := post.(likes := Pull(post.likes, caller))];
      users := users[caller := me.(likedPosts := Pull(me.likedPosts, id))];
      r := Success(200, "Post unliked successfully");
    } else {
      posts := posts[id := post.(likes := post.likes + [caller])];
      users := users[caller := me.(likedPosts := me.likedPosts + [id])];
      db.notifications := db.notifications + [Notification(caller, post.user, Like)];
      r := Success(200, "Post liked successfully");
    }
    assert (users, posts) == ToggleLike(old(db.users), old(db.posts), caller, id);
    db.users, db.posts := users, posts;
    LikeToggledKeepsValid(db, old(db.users), old(db.posts), caller, id);
  }

  /** The store after a like toggle is still valid. */
  lemma LikeToggledKeepsValid(db: Db, users: map<UserId, User>, posts: map<PostId, Post>, caller: UserId, id: PostId)
    requires Consistent(users, posts, db.nextId, db.clock)
    requires caller in users && id in posts
    requires (db.users, db.posts) == ToggleLike(users, posts, caller, id)
    ensures db.Valid()
  {
    ToggleLikeKeepsConsistent(users, posts, db.nextId, db.clock, caller, id);
  }

  /** Newest first: `createdAt` never increases along the sequence. */
  predicate NewestFirst(s: seq<Post>) {
    forall i, j | 0 <= i < j < |s| :: s[i].createdAt >= s[j].createdAt
  }

  function InsertByDate(x: Post, s: seq<Post>): (r: seq<Post>)
    requires NewestFirst(s)
    ensures NewestFirst(r)
    ensures multiset(r) == multiset(s) + multiset{x}
  {
    if s == [] || x.createdAt >= s[0].createdAt then
      PrependNewest(x, s);
      [x] + s
    else
      var rest := InsertByDate(x, s[1..]);
      assert s == [s[0]] + s[1..];
      SameMultisetSameMembers(rest, s[1..] + [x]);
      PrependNewest(s[0], rest);
      [s[0]] + rest
  }

  lemma PrependNewest(y: Post, s: seq<Post>)
    requires NewestFirst(s)
    requires forall z | z in s :: y.createdAt >= z.createdAt
    ensures NewestFirst([y] + s)
  {
    var t := [y] + s;
    forall i, j | 0 <= i < j < |t| ensures t[i].createdAt >= t[j].createdAt {
      assert t[j] == s[j - 1];
      if i > 0 {
        assert t[i] == s[i - 1];
      }
    }
  }

  /** `.sort({ createdAt: -1 })`: the same posts, newest first. */
  function SortNewestFirst(s: seq<Post>): (r: seq<Post>)
    ensures NewestFirst(r)
    ensures multiset(r) == multiset(s)
  {
    if s == [] then []
    else
      assert s == [s[0]] + s[1..];
      InsertByDate(s[0], SortNewestFirst(s[1..]))
  }

  /** `x` is a post of the store, under its own id. */
  predicate Stored(posts: map<PostId, Post>, x: Post) {
    x.id in posts && posts[x.id] == x
  }

  /** No post appears twice: the ids along the sequence are pairwise distinct. */
  predicate OncePerId(s: seq<Post>) {
    forall i, j | 0 <= i < j < |s| :: s[i].id != s[j].id
  }

  /** `Post.find()` lists every stored post at most once. */
  lemma {:induction false} PostsBelowOnce(posts: map<PostId, Post>, bound: nat)
    requires KeyedById(posts)
    ensures forall x :: multiset(PostsBelow(posts, bound))[x] <= 1
  {
    if bound > 0 {
      PostsBelowOnce(posts, bound - 1);
      var earlier := PostsBelow(posts, bound - 1);
      if bound - 1 in posts {
        assert posts[bound - 1] !in earlier;
      }
    }
  }

  /** A selection from `Post.find()`, in any order, repeats no post and no id. */
  lemma SelectionOncePerId(posts: map<PostId, Post>, bound: nat, s: seq<Post>)
    requires KeyedById(posts)
    requires multiset(s) <= multiset(PostsBelow(posts, bound))
    ensures OncePerId(s)
  {
    PostsBelowOnce(posts, bound);
    forall i, j | 0 <= i < j < |s| ensures s[i].id != s[j].id {
      assert s[i] in multiset(PostsBelow(posts, bound)) && s[j] in multiset(PostsBelow(posts, bound));
      if s[i].id == s[j].id {
        assert s[i] == s[j];
        RepeatedValueCountsTwice(s, i, j);
        assert false;
      }
    }
  }

  /** `getAllPosts`: every stored post exactly once, newest first. */
  function GetAllPosts(posts: map<PostId, Post>, bound: nat): (r: seq<Post>)
    requires KeyedById(posts) && IdsBelow(posts, bound)
    ensures NewestFirst(r)
    ensures forall x :: x in r <==> Stored(posts, x)
    ensures multiset(r) == multiset(PostsBelow(posts, bound))
    ensures OncePerId(r)
  {
    var r := SortNewestFirst(PostsBelow(posts, bound));
    SameMultisetSameMembers(r, PostsBelow(posts, bound));
    SelectionOncePerId(posts, bound, r);
    r
  }

  /** `getFollowingPosts`: the posts whose author the caller follows, newest first. */
  function GetFollowingPosts(users: map<UserId, User>, posts: map<PostId, Post>, bound: nat, caller: UserId)
    : (r: Response<seq<Post>>)
    requires KeyedById(posts) && IdsBelow(posts, bound)
    ensures r.Failure? <==> caller !in users
    ensures r.Failure? ==> r == Failure(404, "User not found")
    ensures r.Success? ==>
              r.status == 200 && NewestFirst(r.value) && OncePerId(r.value)
              && forall x :: x in r.value <==> Stored(posts, x) && x.user in users[caller].following
  {
    if caller !in users then Failure(404, "User not found")
    else
      var following := users[caller].following;
      var mine := Filter(PostsBelow(posts, bound), (p: Post) => p.user in following);
      var sorted := SortNewestFirst(mine);
      SameMultisetSameMembers(sorted, mine);
      SelectionOncePerId(posts, bound, sorted);
      Success(200, sorted)
  }

  /** `getUserPosts`: an unknown username is 404; otherwise that user's posts, newest first. */
  function GetUserPosts(users: map<UserId, User>, posts: map<PostId, Post>, bound: nat, username: string)
    : (r: Response<seq<Post>>)
    requires KeyedById(posts) && IdsBelow(posts, bound) && UsersIndexed(users, bound) && UniqueAccounts(users)
    ensures r.Failure? <==> !AuthController.UsernameTaken(users, username)
    ensures r.Failure? ==> r == Failure(404, "User not found")
    ensures r.Success? ==>
              r.status == 200 && NewestFirst(r.value) && OncePerId(r.value)
              && forall x :: x in r.value <==>
                   Stored(posts, x) && x.user in users && users[x.user].username == username
  {
    AuthController.FindByUsernameFinds(users, bound, username);
    match FindByUsername(users, bound, username)
    case None => Failure(404, "User not found")
    case Some(owner) =>
      var theirs := Filter(PostsBelow(posts, bound), (p: Post) => p.user == owner);
      var sorted := SortNewestFirst(theirs);
      SameMultisetSameMembers(sorted, theirs);
      SelectionOncePerId(posts, bound, sorted);
      Success(200, sorted)
  }

  /** `getLikedPosts`: the stored posts whose id the caller's `likedPosts` holds, in store order. */
  function GetLikedPosts(users: map<UserId, User>, posts: map<PostId, Post>, bound: nat, caller: UserId)
    : (r: Response<seq<Post>>)
    requires KeyedById(posts) && IdsBelow(posts, bound)
    ensures r.Failure? <==> caller !in users
    ensures r.Failure? ==> r == Failure(404, "User not found")
    ensures r.Success? ==>
              r.status == 200 && OncePerId(r.value)
              && forall x :: x in r.value <==> Stored(posts, x) && x.id in users[caller].likedPosts
  {
    if caller !in users then Failure(404, "User not found")
    else
      var liked := users[caller].likedPosts;
      var theirs := Filter(PostsBelow(posts, bound), (p: Post) => p.id in liked);
      SelectionOncePerId(posts, bound, theirs);
      Success(200, theirs)
  }
}
