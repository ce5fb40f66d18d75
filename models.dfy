/** The documents of the User, Post and Notification collections, and their public projections. */
module Models {
  import opened Wrappers

  /** Mongo ObjectIds: opaque, unique, compared by equality. */
  type UserId = nat
  type PostId = nat

  /**
   * A user document. `password` holds the bcrypt hash. An empty string stands for a
   * field the schema defaults to "".
   */
  datatype User = User(
    id: UserId,
    username: string,
    fullName: string,
    email: string,
    password: string,
    bio: string,
    link: string,
    profileImg: string,
    coverImg: string,
    followers: seq<UserId>,
    following: seq<UserId>,
    likedPosts: seq<PostId>)

  datatype Comment = Comment(user: UserId, text: string)

  /** A post document; `createdAt` is the store's logical clock at insertion. */
  datatype Post = Post(
    id: PostId,
    user: UserId,
    text: string,
    img: string,
    likes: seq<UserId>,
    comments: seq<Comment>,
    createdAt: nat)

  datatype NotificationKind = Follow | Like

  datatype Notification = Notification(from: UserId, to: UserId, kind: NotificationKind)

  /** A user document as serialised with `select("-password")` or with `password = null`. */
  datatype PublicUser = PublicUser(
    id: UserId,
    username: string,
    fullName: string,
    email: string,
    bio: string,
    link: string,
    profileImg: string,
    coverImg: string,
    followers: seq<UserId>,
    following: seq<UserId>,
    likedPosts: seq<PostId>)

  /**
   * The hand-built object the signup and login handlers answer with. Signup includes
   * `link`, login does not; neither includes the password, the bio or the liked posts.
   */
  datatype AuthView = AuthView(
    id: UserId,
    fullName: string,
    username: string,
    email: string,
    followers: seq<UserId>,
    following: seq<UserId>,
    profileImg: string,
    coverImg: string,
    link: Option<string>)

  /** The password-free projection of a stored user. */
  function Public(u: User): PublicUser
  {
    PublicUser(u.id, u.username, u.fullName, u.email, u.bio, u.link, u.profileImg, u.coverImg,
               u.followers, u.following, u.likedPosts)
  }

  /** A user document as the schema's defaults make it: empty profile fields and relations. */
  function NewUser(id: UserId, fullName: string, username: string, email: string, hashed: string): User
  {
    User(id, username, fullName, email, hashed, "", "", "", "", [], [], [])
  }
}
