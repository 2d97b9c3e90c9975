/**
 * Request-time identity resolution (src/utils/dependencies.py): a bearer token is decoded
 * to its `sub` claim and the claim is looked up as a user's email. Every failure gives the
 * same 401 answer.
 */
module Dependencies {
  import opened Wrappers
  import opened Models
  import opened Http
  import opened Repository

  /** The payload of a decoded token; `sub` is absent when the token carries no subject. */
  datatype Claims = Claims(sub: Option<string>)

  /** The one answer for every failure to resolve a token. */
  const CredentialsException := HttpError(401, "Could not validate credentials", [("WWW-Authenticate", "Bearer")])

  /**
   * `get_current_user`: `jwtDecode` stands for `jwt.decode` with the server's key and
   * algorithm, `None` being a `JWTError` (bad signature, expired, malformed).
   */
  function GetCurrentUser(users: map<string, User>, jwtDecode: string -> Option<Claims>, token: string): (r: Result<User>)
    requires UsersKeyed(users)
    ensures r.Ok? || r.Err?
    ensures r.Ok? ==>
      && r.status == 200
      && r.value in users.Values
      && jwtDecode(token) == Some(Claims(Some(r.value.email)))
    ensures r.Err? ==>
      && r.error == CredentialsException
      && forall u :: u in users.Values ==> jwtDecode(token) != Some(Claims(Some(u.email)))
  {
    match jwtDecode(token)
    case None => Err(CredentialsException)
    case Some(payload) =>
      if payload.sub.None? then Err(CredentialsException)
      else
        match GetUserByEmail(users, payload.sub.value)
        case None => Err(CredentialsException)
        case Some(user) => Ok(200, user)
  }

  /**
   * Resolution looks only at which emails have accounts: two tables with the same emails
   * (whatever the confirmation flags, hashes or avatars) resolve a token alike.
   */
  lemma ResolutionIgnoresAccountState(
    users1: map<string, User>, users2: map<string, User>, jwtDecode: string -> Option<Claims>, token: string)
    requires UsersKeyed(users1) && UsersKeyed(users2) && users1.Keys == users2.Keys
    ensures GetCurrentUser(users1, jwtDecode, token).Ok? == GetCurrentUser(users2, jwtDecode, token).Ok?
    ensures GetCurrentUser(users1, jwtDecode, token).Ok? ==>
      GetCurrentUser(users1, jwtDecode, token).value.email == GetCurrentUser(users2, jwtDecode, token).value.email
  {
  }
}
