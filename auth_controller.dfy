/** The signup, login, logout and current-user handlers. */
module AuthController {
  import opened Wrappers
  import opened Models
  import opened Database
  import opened EmailFormat

  /** The `maxAge` of the session cookie: 15 days in milliseconds. */
  const SessionMaxAgeMs: nat := 1000 * 60 * 60 * 24 * 15

  /** What a handler does to the `jwt` cookie. */
  datatype SessionCookie = Untouched | SetJwt(userId: UserId, maxAgeMs: nat) | Cleared

  datatype AuthReply = AuthReply(response: Response<AuthView>, cookie: SessionCookie)

  ghost predicate UsernameTaken(users: map<UserId, User>, username: string) {
    exists u | u in users :: users[u].username == username
  }

  ghost predicate EmailTaken(users: map<UserId, User>, email: string) {
    exists u | u in users :: users[u].email == email
  }

  lemma FindByUsernameFinds(users: map<UserId, User>, bound: nat, username: string)
    requires UsersIndexed(users, bound)
    ensures FindByUsername(users, bound, username).Some? <==> UsernameTaken(users, username)
  {
    if UsernameTaken(users, username) {
      var u :| u in users && users[u].username == username;
    }
  }

  lemma FindByEmailFinds(users: map<UserId, User>, bound: nat, email: string)
    requires UsersIndexed(users, bound)
    ensures FindByEmail(users, bound, email).Some? <==> EmailTaken(users, email)
  {
    if EmailTaken(users, email) {
      var u :| u in users && users[u].email == email;
    }
  }

  /**
   * The signup checks in the handler's order: the first that fails gives the answer
   * (email format, then username taken, then email taken, then password length).
   */
  function SignupError(users: map<UserId, User>, bound: nat, username: string, email: string, password: string)
    : (r: Option<string>)
    requires UsersIndexed(users, bound)
    ensures r == Some("Invalid email format") <==> !EmailRegexTest(email)
    ensures r == Some("Username already in use") <==>
              EmailRegexTest(email) && UsernameTaken(users, username)
    ensures r == Some("Email already in use") <==>
              EmailRegexTest(email) && !UsernameTaken(users, username) && EmailTaken(users, email)
    ensures r == Some("Password must be at least 6 characters") <==>
              EmailRegexTest(email) && !UsernameTaken(users, username) && !EmailTaken(users, email)
              && |password| < 6
    ensures r == None <==>
              EmailRegexTest(email) && !UsernameTaken(users, username) && !EmailTaken(users, email)
              && |password| >= 6
  {
    FindByUsernameFinds(users, bound, username);
    FindByEmailFinds(users, bound, email);
    if !EmailRegexTest(email) then Some("Invalid email format")
    else if FindByUsername(users, bound, username).Some? then Some("Username already in use")
    else if FindByEmail(users, bound, email).Some? then Some("Email already in use")
    else if |password| < 6 then Some("Password must be at least 6 characters")
    else None
  }

  /** With a fresh username and email, a 5-character password is refused and a 6-character one accepted. */
  lemma PasswordLengthBoundary(users: map<UserId, User>, bound: nat, username: string, email: string)
    requires UsersIndexed(users, bound)
    requires EmailRegexTest(email) && !UsernameTaken(users, username) && !EmailTaken(users, email)
    ensures SignupError(users, bound, username, email, "short") == Some("Password must be at least 6 characters")
    ensures SignupError(users, bound, username, email, "sixchr") == None
  {
  }

  /** A signup that passes every check leaves usernames and emails unique. */
  lemma SignupKeepsAccountsUnique(users: map<UserId, User>, bound: nat, fullName: string, username: string,
                                  email: string, password: string, hashed: string)
    requires UsersIndexed(users, bound) && UniqueAccounts(users)
    requires SignupError(users, bound, username, email, password) == None
    ensures UniqueAccounts(users[bound := NewUser(bound, fullName, username, email, hashed)])
  {
    var users' := users[bound := NewUser(bound, fullName, username, email, hashed)];
    forall a, b | a in users' && b in users' && a != b
      ensures users'[a].username != users'[b].username && users'[a].email != users'[b].email
    {
      if a == bound {
        assert users'[b] == users[b];
      } else if b == bound {
        assert users'[a] == users[a];
      }
    }
  }

  /** The answer of a successful signup: the new account without its password and bio. */
  function SignupView(u: User): AuthView {
    AuthView(u.id, u.fullName, u.username, u.email, u.followers, u.following, u.profileImg, u.coverImg, Some(u.link))
  }

  /** The answer of a successful login: as for signup, without the link. */
  function LoginView(u: User): AuthView {
    AuthView(u.id, u.fullName, u.username, u.email, u.followers, u.following, u.profileImg, u.coverImg, None)
  }

  /**
   * `signup`: run the checks; on success store one new user with the hashed password and the
   * schema's defaults, set the session cookie, and answer 201 with the public fields.
   */
  method Signup(db: Db, fullName: string, username: string, email: string, password: string,
                hash: string -> string)
    returns (reply: AuthReply)
    requires db.Valid()
    modifies db
    ensures db.Valid()
    ensures db.posts == old(db.posts) && db.notifications == old(db.notifications) && db.clock == old(db.clock)
    ensures var err := SignupError(old(db.users), old(db.nextId), username, email, password);
            err.Some? ==> reply == AuthReply(Failure(400, err.value), Untouched)
                          && db.users == old(db.users) && db.nextId == old(db.nextId)
    ensures var id := old(db.nextId);
            var created := NewUser(id, fullName, username, email, hash(password));
            SignupError(old(db.users), old(db.nextId), username, email, password).None? ==>
              && db.users == old(db.users)[id := created]
              && db.nextId == id + 1
              && reply == AuthReply(Success(201, SignupView(created)), SetJwt(id, SessionMaxAgeMs))
  {
    var err := SignupError(db.users, db.nextId, username, email, password);
    if err.Some? {
      return AuthReply(Failure(400, err.value), Untouched);
    }
    var hashed := hash(password);
    var id := db.nextId;
    var created := NewUser(id, fullName, username, email, hashed);
    InsertUserKeepsConsistent(db.users, db.posts, db.nextId, db.clock, created);
    db.users := db.users[id := created];
    db.nextId := id + 1;
    reply := AuthReply(Success(201, SignupView(created)), SetJwt(id, SessionMaxAgeMs));
  }

  /**
   * `login`: look the username up, compare the password (against "" when there is no such
   * user), and answer one generic error for either failure.
   */
  function Login(users: map<UserId, User>, bound: nat, username: string, password: string,
                 compare: (string, string) -> bool)
    : (reply: AuthReply)
    requires UsersIndexed(users, bound)
    ensures reply.response.Success? <==>
              exists u | u in users :: users[u].username == username && compare(password, users[u].password)
                                       && FindByUsername(users, bound, username) == Some(u)
    ensures reply.response.Failure? ==>
              reply == AuthReply(Failure(400, "Invalid username or password"), Untouched)
    ensures reply.response.Success? ==>
              var u := FindByUsername(users, bound, username).value;
              && reply == AuthReply(Success(200, LoginView(users[u])), SetJwt(u, SessionMaxAgeMs))
              && reply.response.value.username == username
              && reply.response.value.link.None?
  {
    var found := FindByUsername(users, bound, username);
    var valid := compare(password, if found.Some? then users[found.value].password else "");
    if found.None? || !valid then AuthReply(Failure(400, "Invalid username or password"), Untouched)
    else
      var u := users[found.value];
      AuthReply(Success(200, LoginView(u)), SetJwt(u.id, SessionMaxAgeMs))
  }

  /** An unknown username and a wrong password produce the very same answer. */
  lemma LoginFailuresIndistinguishable(users: map<UserId, User>, bound: nat, unknown: string, known: string,
                                       password1: string, password2: string, compare: (string, string) -> bool)
    requires UsersIndexed(users, bound)
    requires !UsernameTaken(users, unknown)
    requires forall u | u in users && users[u].username == known :: !compare(password2, users[u].password)
    ensures Login(users, bound, unknown, password1, compare) == Login(users, bound, known, password2, compare)
  {
    FindByUsernameFinds(users, bound, unknown);
  }

  /** `logout`: clear the cookie and confirm. */
  function Logout(): (reply: (Response<string>, SessionCookie))
    ensures reply.1 == Cleared && reply.0.Success? && reply.0.status == 200
  {
    (Success(200, "Logged out successfully"), Cleared)
  }

  /**
   * `getUser`: the caller's own document without its password; `None` is the `null` body
   * sent when the id the gate resolved is no longer stored.
   */
  function GetUser(users: map<UserId, User>, caller: UserId): (r: Response<Option<PublicUser>>)
    ensures r.Success? && r.status == 200
    ensures r.value.Some? <==> caller in users
    ensures caller in users ==> r.value == Some(Public(users[caller]))
  {
    if caller in users then Success(200, Some(Public(users[caller]))) else Success(200, None)
  }

  /** No answer of these handlers depends on the stored password hash. */
  lemma AnswersIgnorePassword(u: User, other: string)
    ensures Public(u.(password := other)) == Public(u)
    ensures SignupView(u.(password := other)) == SignupView(u)
    ensures LoginView(u.(password := other)) == LoginView(u)
  {
  }
}
