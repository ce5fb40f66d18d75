/**
 * The paired updates behind follow/unfollow and like/unlike. Each toggle reads one
 * membership and then `$pull`s or `$push`es on two documents; the invariants below say the
 * two sides stay mirror images of each other.
 */
module Relations {
  import opened Models
  import opened Seqs

  /** `b` is in `a`'s following exactly when `a` is in `b`'s followers. */
  ghost predicate FollowMirror(users: map<UserId, User>) {
    forall a, b | a in users && b in users :: b in users[a].following <==> a in users[b].followers
  }

  /** `u` is in post `p`'s likes exactly when `p` is in `u`'s liked posts. */
  ghost predicate LikeMirror(users: map<UserId, User>, posts: map<PostId, Post>) {
    forall u, p | u in users && p in posts :: u in posts[p].likes <==> p in users[u].likedPosts
  }

  /** The follow relation as a set of (follower, followed) pairs, read from the `following` arrays. */
  ghost function Follows(users: map<UserId, User>): set<(UserId, UserId)> {
    set a, b | a in users && b in users[a].following :: (a, b)
  }

  /** The like relation as a set of (user, post) pairs, read from the posts' `likes` arrays. */
  ghost function Likes(posts: map<PostId, Post>): set<(UserId, PostId)> {
    set p, u | p in posts && u in posts[p].likes :: (u, p)
  }

  /**
   * followUnfollowUser past its checks: if `target` is in the caller's `following`, pull it
   * there and pull the caller from the target's `followers`; otherwise push on both sides.
   */
  function ToggleFollow(users: map<UserId, User>, caller: UserId, target: UserId): (r: map<UserId, User>)
    requires caller in users && target in users && caller != target
    ensures r.Keys == users.Keys
    ensures forall u | u in users && u != caller && u != target :: r[u] == users[u]
    ensures r[caller] == users[caller].(following := r[caller].following)
    ensures r[target] == users[target].(followers := r[target].followers)
    ensures target in r[caller].following <==> target !in users[caller].following
    ensures caller in r[target].followers <==> target !in users[caller].following
    ensures forall x | x != target :: x in r[caller].following <==> x in users[caller].following
    ensures forall x | x != caller :: x in r[target].followers <==> x in users[target].followers
  {
    var me, them := users[caller], users[target];
    if target in me.following then
      users[caller := me.(following := Pull(me.following, target))]
           [target := them.(followers := Pull(them.followers, caller))]
    else
      users[caller := me.(following := me.following + [target])]
           [target := them.(followers := them.followers + [caller])]
  }

  /**
   * likeUnlikePost past its check: if `caller` is in the post's `likes`, pull it there and
   * pull the post from the caller's `likedPosts`; otherwise push on both sides. What it
   * changes is stated by `ToggleLikeEffect`.
   */
  function ToggleLike(users: map<UserId, User>, posts: map<PostId, Post>, caller: UserId, post: PostId)
    : (map<UserId, User>, map<PostId, Post>)
    requires caller in users && post in posts
  {
    var me, p := users[caller], posts[post];
    if caller in p.likes then
      (users[caller := me.(likedPosts := Pull(me.likedPosts, post))],
       posts[post := p.(likes := Pull(p.likes, caller))])
    else
      (users[caller := me.(likedPosts := me.likedPosts + [post])],
       posts[post := p.(likes := p.likes + [caller])])
  }

  /**
   * A like toggle changes only the caller's `likedPosts` and the post's `likes`, flips the
   * caller's membership in both, and leaves every other member of either list where it was.
   */
  lemma ToggleLikeEffect(users: map<UserId, User>, posts: map<PostId, Post>, caller: UserId, post: PostId)
    requires caller in users && post in posts
    ensures var r := ToggleLike(users, posts, caller, post);
            && (r.0.Keys == users.Keys && r.1.Keys == posts.Keys)
            && (forall u | u in users && u != caller :: r.0[u] == users[u])
            && (forall q | q in posts && q != post :: r.1[q] == posts[q])
            && (r.0[caller] == users[caller].(likedPosts := r.0[caller].likedPosts))
            && (r.1[post] == posts[post].(likes := r.1[post].likes))
            && (caller in r.1[post].likes <==> caller !in posts[post].likes)
            && (post in r.0[caller].likedPosts <==> caller !in posts[post].likes)
            && (forall x | x != caller :: x in r.1[post].likes <==> x in posts[post].likes)
            && (forall q | q != post :: q in r.0[caller].likedPosts <==> q in users[caller].likedPosts)
  {
  }

  /** A follow toggle keeps the two sides of the follow relation mirrored. */
  lemma ToggleFollowKeepsMirror(users: map<UserId, User>, caller: UserId, target: UserId)
    requires caller in users && target in users && caller != target
    requires FollowMirror(users)
    ensures FollowMirror(ToggleFollow(users, caller, target))
  {
    var r := ToggleFollow(users, caller, target);
    forall a, b | a in r && b in r
      ensures b in r[a].following <==> a in r[b].followers
    {
      assert b in users[a].following <==> a in users[b].followers;
    }
  }

  lemma InFollows(users: map<UserId, User>, a: UserId, b: UserId)
    ensures (a, b) in Follows(users) <==> a in users && b in users[a].following
  {
    if a in users && b in users[a].following {
      assert (a, b) in Follows(users);
    }
  }

  /** A follow toggle adds or removes exactly the pair (caller, target) of the follow relation. */
  lemma ToggleFollowFlipsOnePair(users: map<UserId, User>, caller: UserId, target: UserId)
    requires caller in users && target in users && caller != target
    ensures Follows(ToggleFollow(users, caller, target))
         == if (caller, target) in Follows(users) then Follows(users) - {(caller, target)}
            else Follows(users) + {(caller, target)}
  {
    var r := ToggleFollow(users, caller, target);
    var before, after := Follows(users), Follows(r);
    var expected := if (caller, target) in before then before - {(caller, target)} else before + {(caller, target)};
    InFollows(users, caller, target);
    forall e: (UserId, UserId) ensures e in after <==> e in expected {
      InFollows(users, e.0, e.1);
      InFollows(r, e.0, e.1);
      if e.0 != caller && e.0 in users {
        assert r[e.0].following == users[e.0].following;
      }
    }
  }

  /**
   * Follow then unfollow, starting from "not following", restores every document exactly,
   * order of the arrays included ([u3] -> [u3, u2] -> [u3]).
   */
  lemma ToggleFollowTwiceRestores(users: map<UserId, User>, caller: UserId, target: UserId)
    requires caller in users && target in users && caller != target
    requires FollowMirror(users)
    requires target !in users[caller].following
    ensures ToggleFollow(ToggleFollow(users, caller, target), caller, target) == users
  {
    var me, them := users[caller], users[target];
    assert caller !in them.followers;
    var once := ToggleFollow(users, caller, target);
    assert once[caller].following == me.following + [target];
    assert once[target].followers == them.followers + [caller];
    PullAfterPush(me.following, target);
    PullAfterPush(them.followers, caller);
    var twice := ToggleFollow(once, caller, target);
    assert twice[caller] == me;
    assert twice[target] == them;
  }

  /** Two follow toggles, from any state, give back the same follow relation. */
  lemma ToggleFollowTwiceSameRelation(users: map<UserId, User>, caller: UserId, target: UserId)
    requires caller in users && target in users && caller != target
    ensures Follows(ToggleFollow(ToggleFollow(users, caller, target), caller, target)) == Follows(users)
  {
    ToggleFollowFlipsOnePair(users, caller, target);
    ToggleFollowFlipsOnePair(ToggleFollow(users, caller, target), caller, target);
  }

  /** A like toggle keeps the two sides of the like relation mirrored. */
  lemma ToggleLikeKeepsMirror(users: map<UserId, User>, posts: map<PostId, Post>, caller: UserId, post: PostId)
    requires caller in users && post in posts
    requires LikeMirror(users, posts)
    ensures LikeMirror(ToggleLike(users, posts, caller, post).0, ToggleLike(users, posts, caller, post).1)
  {
    ToggleLikeEffect(users, posts, caller, post);
    var r := ToggleLike(users, posts, caller, post);
    forall u, p | u in r.0 && p in r.1
      ensures u in r.1[p].likes <==> p in r.0[u].likedPosts
    {
      assert u in posts[p].likes <==> p in users[u].likedPosts;
    }
  }

  /** A like toggle adds or removes exactly the pair (caller, post) of the like relation. */
  lemma ToggleLikeFlipsOnePair(users: map<UserId, User>, posts: map<PostId, Post>, caller: UserId, post: PostId)
    requires caller in users && post in posts
    ensures Likes(ToggleLike(users, posts, caller, post).1)
         == if (caller, post) in Likes(posts) then Likes(posts) - {(caller, post)}
            else Likes(posts) + {(caller, post)}
  {
    ToggleLikeEffect(users, posts, caller, post);
    var r := ToggleLike(users, posts, caller, post).1;
    var before, after := Likes(posts), Likes(r);
    var expected := if (caller, post) in before then before - {(caller, post)} else before + {(caller, post)};
    assert (caller, post) in before <==> caller in posts[post].likes;
    forall e | e in after ensures e in expected {
      var (u, p) := e;
      assert p in r && u in r[p].likes;
    }
    forall e | e in expected ensures e in after {
      var (u, p) := e;
      if e != (caller, post) {
        assert p in posts && u in posts[p].likes;
        assert u in r[p].likes;
      }
    }
  }

  /** The two `$pull`s undo the two `$push`es when neither value was there before. */
  lemma PullUndoesLikePush(me: User, p: Post, caller: UserId, post: PostId)
    requires caller !in p.likes && post !in me.likedPosts
    ensures me.(likedPosts := me.likedPosts + [post]).(likedPosts := Pull(me.likedPosts + [post], post)) == me
    ensures p.(likes := p.likes + [caller]).(likes := Pull(p.likes + [caller], caller)) == p
  {
    PullAfterPush(me.likedPosts, post);
    PullAfterPush(p.likes, caller);
  }

  /**
   * Like then unlike, starting from "not liked", restores the post and the user exactly
   * (both `likes` and `likedPosts`, order included).
   */
  lemma ToggleLikeTwiceRestores(users: map<UserId, User>, posts: map<PostId, Post>, caller: UserId, post: PostId)
    requires caller in users && post in posts
    requires LikeMirror(users, posts)
    requires caller !in posts[post].likes
    ensures var once := ToggleLike(users, posts, caller, post);
            ToggleLike(once.0, once.1, caller, post) == (users, posts)
  {
    var me, p := users[caller], posts[post];
    assert post !in me.likedPosts;
    PullUndoesLikePush(me, p, caller, post);
    var me', p' := me.(likedPosts := me.likedPosts + [post]), p.(likes := p.likes + [caller]);
    var users', posts' := users[caller := me'], posts[post := p'];
    assert ToggleLike(users, posts, caller, post) == (users', posts');
    assert caller in posts'[post].likes;
    assert ToggleLike(users', posts', caller, post) == (users'[caller := me], posts'[post := p]);
    assert users'[caller := me] == users;
    assert posts'[post := p] == posts;
  }

  /** Two like toggles, from any state, give back the same like relation. */
  lemma ToggleLikeTwiceSameRelation(users: map<UserId, User>, posts: map<PostId, Post>, caller: UserId, post: PostId)
    requires caller in users && post in posts
    ensures var once := ToggleLike(users, posts, caller, post);
            Likes(ToggleLike(once.0, once.1, caller, post).1) == Likes(posts)
  {
    ToggleLikeEffect(users, posts, caller, post);
    var once := ToggleLike(users, posts, caller, post);
    ToggleLikeFlipsOnePair(users, posts, caller, post);
    ToggleLikeFlipsOnePair(once.0, once.1, caller, post);
  }

  /**
   * Unlike then like does not restore the order: `$pull` takes the caller out of the middle
   * of `likes` and `$push` puts it back at the end.
   */
  lemma ToggleLikeTwiceMayReorder(users: map<UserId, User>, posts: map<PostId, Post>, caller: UserId,
                                  other: UserId, post: PostId)
    requires caller in users && post in posts && caller != other
    requires posts[post].likes == [caller, other]
    ensures var once := ToggleLike(users, posts, caller, post);
            ToggleLike(once.0, once.1, caller, post).1[post].likes == [other, caller]
  {
    var once := ToggleLike(users, posts, caller, post);
    assert [caller, other][1..] == [other];
    assert Pull([other], caller) == [other] by {
      PullAbsent([other], caller);
    }
    assert once.1[post].likes == [other];
  }
}
