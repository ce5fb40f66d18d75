/**
 * The `authenticateJWT` gate run before every authenticated handler: read the `jwt`
 * cookie, verify it, resolve its `userId`, and either answer on the handler's behalf or let
 * it run with `req.user` set.
 */
module AuthMiddleware {
  import opened Wrappers
  import opened Models

  /**
   * What `jwt.verify(token, secret)` does with a token: throw (a malformed or expired token,
   * a bad signature), return a falsy value, or return a payload whose `userId` may be absent.
   */
  datatype Verified = Threw | Falsy | Payload(userId: Option<UserId>)

  /** The gate's decision: answer with an error, or call `next()` with `req.user` set to `user`. */
  datatype Gate = Reject(status: nat, error: string) | Next(user: User)

  /**
   * `authenticateJWT`. The empty string stands for a missing cookie; `verify` is
   * `jwt.verify` under the server's secret. The store is only read.
   */
  function Authenticate(users: map<UserId, User>, token: string, verify: string -> Verified): (g: Gate)
    ensures token == "" ==> g == Reject(401, "Unauthorized: No token provided")
    ensures token != "" && verify(token) == Threw ==> g == Reject(500, "Internal server error")
    ensures token != "" && verify(token) == Falsy ==> g == Reject(401, "Unauthorized: Invalid token")
    ensures g.Next? <==>
              token != "" && verify(token).Payload? && verify(token).userId.Some?
              && verify(token).userId.value in users
    ensures g.Next? ==> g.user == users[verify(token).userId.value]
    ensures token != "" && verify(token).Payload? && g.Reject? ==> g == Reject(401, "User not found")
  {
    if token == "" then Reject(401, "Unauthorized: No token provided")
    else
      match verify(token)
      case Threw => Reject(500, "Internal server error")
      case Falsy => Reject(401, "Unauthorized: Invalid token")
      case Payload(id) =>
        if id.Some? && id.value in users then Next(users[id.value]) else Reject(401, "User not found")
  }

  /** Until a token has verified to a payload, the outcome does not depend on the store at all. */
  lemma DecisionBeforeLookupIgnoresStore(users1: map<UserId, User>, users2: map<UserId, User>,
                                         token: string, verify: string -> Verified)
    requires token == "" || !verify(token).Payload?
    ensures Authenticate(users1, token, verify) == Authenticate(users2, token, verify)
    ensures Authenticate(users1, token, verify).Reject?
  {
  }
}
