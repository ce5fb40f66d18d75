/**
 * The in-memory stand-in for the Mongo database: the User, Post and Notification
 * collections, an id allocator standing in for ObjectId generation, and a logical clock
 * standing in for the `createdAt` timestamps.
 */
module Database {
  import opened Wrappers
  import opened Models
  import opened Relations

  /** No two accounts share a username or an email (the schema's unique indexes). */
  ghost predicate UniqueAccounts(users: map<UserId, User>) {
    forall a, b | a in users && b in users && a != b ::
      users[a].username != users[b].username && users[a].email != users[b].email
  }

  /** Every user is stored under its own id, and every id in use is below `bound`. */
  predicate UsersIndexed(users: map<UserId, User>, bound: nat) {
    forall u | u in users :: users[u].id == u && u < bound
  }

  /** Every post is stored under its own id. */
  predicate KeyedById(posts: map<PostId, Post>) {
    forall id | id in posts :: posts[id].id == id
  }

  /**
   * The store's invariant: documents are keyed by their ids, every id in use is below
   * `nextId`, references between documents resolve, every post is older than the clock,
   * the follow and like relations are mirrored, and accounts are unique.
   */
  ghost predicate Consistent(users: map<UserId, User>, posts: map<PostId, Post>, nextId: nat, clock: nat) {
    && UsersWellFormed(users, nextId)
    && PostsWellFormed(users, posts, nextId, clock)
    && FollowMirror(users)
    && LikeMirror(users, posts)
    && UniqueAccounts(users)
  }

  ghost predicate UsersWellFormed(users: map<UserId, User>, nextId: nat) {
    forall u | u in users ::
      && users[u].id == u && u < nextId
      && (forall v | v in users[u].following :: v in users)
      && (forall v | v in users[u].followers :: v in users)
      && (forall q | q in users[u].likedPosts :: q < nextId)
  }

  ghost predicate PostsWellFormed(users: map<UserId, User>, posts: map<PostId, Post>, nextId: nat, clock: nat) {
    && KeyedById(posts)
    && forall p | p in posts ::
         && p < nextId && posts[p].user in users && posts[p].createdAt < clock
         && (forall v | v in posts[p].likes :: v in users)
  }

  class Db {
    var users: map<UserId, User>
    var posts: map<PostId, Post>
    var notifications: seq<Notification>
    var nextId: nat
    var clock: nat

    ghost predicate Valid()
      reads this
    {
      Consistent(users, posts, nextId, clock)
    }

    constructor ()
      ensures Valid()
      ensures users == map[] && posts == map[] && notifications == []
    {
      users, posts, notifications := map[], map[], [];
      nextId, clock := 0, 0;
    }
  }

  /** Storing a new account under the next id, with no relations yet, keeps the store consistent. */
  lemma InsertUserKeepsConsistent(users: map<UserId, User>, posts: map<PostId, Post>, nextId: nat, clock: nat,
                                  created: User)
    requires Consistent(users, posts, nextId, clock)
    requires created.id == nextId && created.followers == [] && created.following == [] && created.likedPosts == []
    requires forall u | u in users :: users[u].username != created.username && users[u].email != created.email
    ensures Consistent(users[nextId := created], posts, nextId + 1, clock)
  {
    var users' := users[nextId := created];
    forall a, b | a in users' && b in users'
      ensures b in users'[a].following <==> a in users'[b].followers
    {
      if a != nextId && b != nextId {
        assert b in users[a].following <==> a in users[b].followers;
      }
    }
    forall u, p | u in users' && p in posts
      ensures u in posts[p].likes <==> p in users'[u].likedPosts
    {
      if u != nextId {
        assert u in posts[p].likes <==> p in users[u].likedPosts;
      }
    }
  }

  /**
   * Replacing a user's document by one with the same id and the same relation arrays keeps
   * the store consistent, as long as its username and email stay unique.
   */
  lemma ReplaceProfileKeepsConsistent(users: map<UserId, User>, posts: map<PostId, Post>, nextId: nat, clock: nat,
                                      updated: User)
    requires Consistent(users, posts, nextId, clock)
    requires updated.id in users
    requires var old_ := users[updated.id];
             updated.followers == old_.followers && updated.following == old_.following
             && updated.likedPosts == old_.likedPosts
    requires forall u | u in users && u != updated.id ::
               users[u].username != updated.username && users[u].email != updated.email
    ensures Consistent(users[updated.id := updated], posts, nextId, clock)
  {
    var users' := users[updated.id := updated];
    forall a, b | a in users' && b in users'
      ensures b in users'[a].following <==> a in users'[b].followers
    {
      assert b in users[a].following <==> a in users[b].followers;
    }
    forall u, p | u in users' && p in posts
      ensures u in posts[p].likes <==> p in users'[u].likedPosts
    {
      assert u in posts[p].likes <==> p in users[u].likedPosts;
    }
  }

  /** Storing a new post under the next id, with no likes yet, keeps the store consistent. */
  lemma InsertPostKeepsConsistent(users: map<UserId, User>, posts: map<PostId, Post>, nextId: nat, clock: nat,
                                  created: Post)
    requires Consistent(users, posts, nextId, clock)
    requires created.id == nextId && created.user in users && created.likes == [] && created.createdAt == clock
    ensures Consistent(users, posts[nextId := created], nextId + 1, clock + 1)
  {
    var posts' := posts[nextId := created];
    forall u, p | u in users && p in posts'
      ensures u in posts'[p].likes <==> p in users[u].likedPosts
    {
      if p != nextId {
        assert u in posts[p].likes <==> p in users[u].likedPosts;
      }
    }
  }

  /** Replacing a post by one that differs only in its comments keeps the store consistent. */
  lemma ReplaceCommentsKeepsConsistent(users: map<UserId, User>, posts: map<PostId, Post>, nextId: nat, clock: nat,
                                       id: PostId, comments: seq<Comment>)
    requires Consistent(users, posts, nextId, clock)
    requires id in posts
    ensures Consistent(users, posts[id := posts[id].(comments := comments)], nextId, clock)
  {
    var posts' := posts[id := posts[id].(comments := comments)];
    forall u, p | u in users && p in posts'
      ensures u in posts'[p].likes <==> p in users[u].likedPosts
    {
      assert u in posts[p].likes <==> p in users[u].likedPosts;
    }
  }

  /** Removing a post keeps the store consistent (liked-post arrays may keep its id). */
  lemma RemovePostKeepsConsistent(users: map<UserId, User>, posts: map<PostId, Post>, nextId: nat, clock: nat,
                                  id: PostId)
    requires Consistent(users, posts, nextId, clock)
    ensures Consistent(users, posts - {id}, nextId, clock)
  {
    var posts' := posts - {id};
    forall u, p | u in users && p in posts'
      ensures u in posts'[p].likes <==> p in users[u].likedPosts
    {
      assert u in posts[p].likes <==> p in users[u].likedPosts;
    }
  }

  /** A follow toggle keeps the store consistent. */
  lemma ToggleFollowKeepsConsistent(users: map<UserId, User>, posts: map<PostId, Post>, nextId: nat, clock: nat,
                                    caller: UserId, target: UserId)
    requires Consistent(users, posts, nextId, clock)
    requires caller in users && target in users && caller != target
    ensures Consistent(ToggleFollow(users, caller, target), posts, nextId, clock)
  {
    var users' := ToggleFollow(users, caller, target);
    ToggleFollowKeepsMirror(users, caller, target);
    assert UsersWellFormed(users', nextId) by {
      forall u | u in users'
        ensures users'[u].id == u && u < nextId
        ensures forall v | v in users'[u].following :: v in users'
        ensures forall v | v in users'[u].followers :: v in users'
        ensures forall q | q in users'[u].likedPosts :: q < nextId
      {
        assert users'[u].likedPosts == users[u].likedPosts;
      }
    }
    assert PostsWellFormed(users', posts, nextId, clock);
    assert LikeMirror(users', posts) by {
      forall u, p | u in users' && p in posts
        ensures u in posts[p].likes <==> p in users'[u].likedPosts
      {
        assert users'[u].likedPosts == users[u].likedPosts;
        assert u in posts[p].likes <==> p in users[u].likedPosts;
      }
    }
    assert UniqueAccounts(users') by {
      forall a, b | a in users' && b in users' && a != b
        ensures users'[a].username != users'[b].username && users'[a].email != users'[b].email
      {
        assert users'[a].username == users[a].username && users'[a].email == users[a].email;
        assert users'[b].username == users[b].username && users'[b].email == users[b].email;
      }
    }
  }

  lemma ToggleLikeKeepsUsersWellFormed(users: map<UserId, User>, posts: map<PostId, Post>, nextId: nat,
                                       caller: UserId, post: PostId)
    requires UsersWellFormed(users, nextId) && caller in users && post in posts && post < nextId
    ensures UsersWellFormed(ToggleLike(users, posts, caller, post).0, nextId)
  {
    ToggleLikeEffect(users, posts, caller, post);
    var users' := ToggleLike(users, posts, caller, post).0;
    forall u | u in users'
      ensures users'[u].id == u && u < nextId
      ensures forall v | v in users'[u].following :: v in users'
      ensures forall v | v in users'[u].followers :: v in users'
      ensures forall q | q in users'[u].likedPosts :: q < nextId
    {
      assert users'[u].following == users[u].following;
      assert users'[u].followers == users[u].followers;
    }
  }

  lemma ToggleLikeKeepsPostsWellFormed(users: map<UserId, User>, posts: map<PostId, Post>, nextId: nat, clock: nat,
                                       caller: UserId, post: PostId)
    requires PostsWellFormed(users, posts, nextId, clock) && caller in users && post in posts
    ensures var r := ToggleLike(users, posts, caller, post);
            PostsWellFormed(r.0, r.1, nextId, clock)
  {
    ToggleLikeEffect(users, posts, caller, post);
    var r := ToggleLike(users, posts, caller, post);
    forall p | p in r.1
      ensures r.1[p].id == p && p < nextId && r.1[p].user in r.0 && r.1[p].createdAt < clock
      ensures forall v | v in r.1[p].likes :: v in r.0
    {
    }
  }

  lemma ToggleLikeKeepsFollowsAndAccounts(users: map<UserId, User>, posts: map<PostId, Post>,
                                          caller: UserId, post: PostId)
    requires FollowMirror(users) && UniqueAccounts(users) && caller in users && post in posts
    ensures FollowMirror(ToggleLike(users, posts, caller, post).0)
    ensures UniqueAccounts(ToggleLike(users, posts, caller, post).0)
  {
    ToggleLikeEffect(users, posts, caller, post);
    var users' := ToggleLike(users, posts, caller, post).0;
    forall u | u in users'
      ensures u in users
      ensures users'[u].following == users[u].following && users'[u].followers == users[u].followers
      ensures users'[u].username == users[u].username && users'[u].email == users[u].email
    {
    }
  }

  /** A like toggle keeps the store consistent. */
  lemma ToggleLikeKeepsConsistent(users: map<UserId, User>, posts: map<PostId, Post>, nextId: nat, clock: nat,
                                  caller: UserId, post: PostId)
    requires Consistent(users, posts, nextId, clock)
    requires caller in users && post in posts
    ensures var r := ToggleLike(users, posts, caller, post);
            Consistent(r.0, r.1, nextId, clock)
  {
    ToggleLikeKeepsMirror(users, posts, caller, post);
    ToggleLikeKeepsUsersWellFormed(users, posts, nextId, caller, post);
    ToggleLikeKeepsPostsWellFormed(users, posts, nextId, clock, caller, post);
    ToggleLikeKeepsFollowsAndAccounts(users, posts, caller, post);
  }

  /**
   * `findOne`: the first user, in id (insertion) order from `from` up to `bound`, that
   * satisfies `wanted`.
   */
  function FindUser(users: map<UserId, User>, wanted: User -> bool, from: nat, bound: nat): (r: Option<UserId>)
    ensures r.Some? ==> from <= r.value < bound && r.value in users && wanted(users[r.value])
    ensures r.Some? ==> forall k | from <= k < r.value && k in users :: !wanted(users[k])
    ensures r.None? <==> forall k | from <= k < bound && k in users :: !wanted(users[k])
    decreases bound - from
  {
    if from >= bound then None
    else if from in users && wanted(users[from]) then Some(from)
    else FindUser(users, wanted, from + 1, bound)
  }

  /** `User.findOne({ username })`. */
  function FindByUsername(users: map<UserId, User>, bound: nat, username: string): (r: Option<UserId>)
    ensures r.Some? ==> r.value in users && r.value < bound && users[r.value].username == username
    ensures r.None? <==> forall k | 0 <= k < bound && k in users :: users[k].username != username
  {
    FindUser(users, (u: User) => u.username == username, 0, bound)
  }

  /** `User.findOne({ email })`. */
  function FindByEmail(users: map<UserId, User>, bound: nat, email: string): (r: Option<UserId>)
    ensures r.Some? ==> r.value in users && r.value < bound && users[r.value].email == email
    ensures r.None? <==> forall k | 0 <= k < bound && k in users :: users[k].email != email
  {
    FindUser(users, (u: User) => u.email == email, 0, bound)
  }

  /** `Post.find()` before any sort: the stored posts with an id below `bound`, in id order. */
  function PostsBelow(posts: map<PostId, Post>, bound: nat): (r: seq<Post>)
    requires KeyedById(posts)
    ensures forall x :: x in r <==> x.id in posts && x.id < bound && posts[x.id] == x
    ensures forall i, j | 0 <= i < j < |r| :: r[i].id < r[j].id
  {
    if bound == 0 then []
    else
      var earlier := PostsBelow(posts, bound - 1);
      if bound - 1 in posts then earlier + [posts[bound - 1]] else earlier
  }

  /** Every stored post has an id below `bound`, as the id counter guarantees. */
  ghost predicate IdsBelow(posts: map<PostId, Post>, bound: nat) {
    forall p | p in posts :: p < bound
  }

  /** A consistent store's posts all lie below its counter. */
  lemma ConsistentIdsBelow(users: map<UserId, User>, posts: map<PostId, Post>, nextId: nat, clock: nat)
    requires PostsWellFormed(users, posts, nextId, clock)
    ensures IdsBelow(posts, nextId)
  {
  }

  /** Below the counter, `Post.find()` lists exactly the stored posts. */
  lemma PostsBelowIsStore(posts: map<PostId, Post>, bound: nat)
    requires KeyedById(posts) && IdsBelow(posts, bound)
    ensures forall x :: x in PostsBelow(posts, bound) <==> x.id in posts && posts[x.id] == x
  {
  }
}
