/**
 * The account life cycle (src/routes/auth.py): registration, login, email confirmation and
 * the re-request of a confirmation mail. A user starts unconfirmed; confirmation is the only
 * change of the flag and it only ever sets it.
 */
module Auth {
  import opened Wrappers
  import opened Models
  import opened Http
  import opened Repository

  const UserAlreadyExists := HttpError(409, "User with this email already exists.", [])
  const IncorrectEmailOrPassword := HttpError(401, "Incorrect email or password", [])
  const EmailNotConfirmed := HttpError(401, "Email not confirmed", [])
  const VerificationError := HttpError(400, "Verification error", [])
  const AlreadyConfirmed := "Your email is already confirmed"
  const EmailConfirmed := "Email confirmed"
  const CheckYourEmail := "Check your email for confirmation."

  /** The `user` object of the registration answer. */
  datatype UserSummary = UserSummary(email: string, id: int, username: string)

  /** The body of the 201 answer to a registration. */
  datatype Registration = Registration(tokens: TokenPair, user: UserSummary)

  /**
   * `register`: a duplicate email is refused with 409 and nothing changes; otherwise one
   * unconfirmed user holding the password's hash is inserted, one verification mail is queued,
   * and the answer is 201 with the tokens for the email and the new user's summary.
   */
  method Register(
    db: Db, bt: BackgroundTasks, ctx: PasswordContext,
    email: string, username: string, password: string, baseUrl: string)
    returns (r: Result<Registration>)
    requires db.Valid()
    requires 3 <= |username| <= 50
    modifies db, bt
    ensures db.Valid()
    ensures db.contacts == old(db.contacts)
    ensures ConfirmationKept(old(db.users), db.users)
    ensures email in old(db.users) ==>
      && r == Err(UserAlreadyExists)
      && db.users == old(db.users)
      && bt.tasks == old(bt.tasks)
    ensures email !in old(db.users) ==>
      && r.Ok? && r.status == 201
      && r.value == Registration(TokensFor(email), UserSummary(email, r.value.user.id, username))
      && (forall u :: u in old(db.users).Values ==> u.id != r.value.user.id)
      && db.users == old(db.users)[email := User(r.value.user.id, email, username, ctx.hash(password), false, None)]
      && bt.tasks == old(bt.tasks) + [SendEmail(email, username, baseUrl)]
  {
    var existing := GetUserByEmail(db.users, email);
    if existing.Some? {
      return Err(UserAlreadyExists);
    }
    var hashedPassword := ctx.hash(password);
    var newUser := db.AddUser(email, username, hashedPassword);
    var tokens := TokensFor(newUser.email);
    bt.AddTask(SendEmail(newUser.email, newUser.username, baseUrl));
    r := Ok(201, Registration(tokens, UserSummary(newUser.email, newUser.id, newUser.username)));
  }

  /**
   * `login` (the form's `username` field carries the email): tokens only for an existing,
   * confirmed user whose password verifies. An unknown email and a wrong password get the
   * same answer; "Email not confirmed" is given only once the password has verified.
   */
  function Login(users: map<string, User>, ctx: PasswordContext, email: string, password: string): (r: Result<TokenPair>)
    requires UsersKeyed(users)
    ensures r.Ok? || r.Err?
    ensures r.Ok? <==> email in users && ctx.verify(password, users[email].hashedPassword) && users[email].confirmed
    ensures r.Ok? ==> r == Ok(200, TokensFor(email))
    ensures r.Err? ==> r.error == IncorrectEmailOrPassword || r.error == EmailNotConfirmed
    ensures r == Err(EmailNotConfirmed) ==> email in users && ctx.verify(password, users[email].hashedPassword)
    ensures email !in users || !ctx.verify(password, users[email].hashedPassword) ==> r == Err(IncorrectEmailOrPassword)
    ensures email in users && ctx.verify(password, users[email].hashedPassword) && !users[email].confirmed ==>
      r == Err(EmailNotConfirmed)
  {
    var user := GetUserByEmail(users, email);
    if user.None? || !ctx.verify(password, user.value.hashedPassword) then
      Err(IncorrectEmailOrPassword)
    else if !user.value.confirmed then
      Err(EmailNotConfirmed)
    else
      Ok(200, TokensFor(user.value.email))
  }

  /** Login does not tell an unknown email from a known one with a wrong password. */
  lemma LoginHidesUnknownEmails(
    users: map<string, User>, ctx: PasswordContext,
    unknown: string, password1: string, known: string, password2: string)
    requires UsersKeyed(users)
    requires unknown !in users
    requires known in users && !ctx.verify(password2, users[known].hashedPassword)
    ensures Login(users, ctx, unknown, password1) == Login(users, ctx, known, password2) == Err(IncorrectEmailOrPassword)
  {
  }

  /**
   * The handler `confirmed_email`, from the email the verification token carries: 400 for an
   * unknown email, "already confirmed" without a write for a confirmed user, and otherwise the
   * user is confirmed.
   */
  method ConfirmedEmail(db: Db, email: string) returns (r: Result<string>)
    requires db.Valid()
    modifies db
    ensures db.Valid()
    ensures db.contacts == old(db.contacts)
    ensures ConfirmationKept(old(db.users), db.users)
    ensures email !in old(db.users) ==> r == Err(VerificationError) && db.users == old(db.users)
    ensures email in old(db.users) && old(db.users[email].confirmed) ==>
      r == Ok(200, AlreadyConfirmed) && db.users == old(db.users)
    ensures email in old(db.users) && !old(db.users[email].confirmed) ==>
      r == Ok(200, EmailConfirmed) && db.users == Confirmed(old(db.users), email)
  {
    var user := GetUserByEmail(db.users, email);
    if user.None? {
      return Err(VerificationError);
    }
    if user.value.confirmed {
      return Ok(200, AlreadyConfirmed);
    }
    db.ConfirmedEmail(email);
    r := Ok(200, EmailConfirmed);
  }

  /** Confirming twice: the second confirmation succeeds with "already confirmed". */
  method ConfirmTwice(db: Db, email: string) returns (first: Result<string>, second: Result<string>)
    requires db.Valid()
    requires email in db.users
    modifies db
    ensures first == Ok(200, if old(db.users[email].confirmed) then AlreadyConfirmed else EmailConfirmed)
    ensures second == Ok(200, AlreadyConfirmed)
    ensures db.users == Confirmed(old(db.users), email)
  {
    first := ConfirmedEmail(db, email);
    second := ConfirmedEmail(db, email);
  }

  /** What `request_email` answers, and the mail it queues if any. */
  datatype Reply = Reply(result: Result<string>, mail: Option<Mail>)

  /**
   * `request_email` as written: `user.confirmed` is read before `user` is checked, so an
   * email without an account raises instead of answering.
   */
  function RequestEmailAsWritten(found: Option<User>, baseUrl: string): (r: Reply)
    ensures found.None? ==> r.result.Unhandled? && r.mail.None?
    ensures r.mail.Some? ==> found.Some? && !found.value.confirmed
    ensures found.Some? ==> r.result.Ok? && r.result.status == 200
    ensures found.Some? && found.value.confirmed ==> r.result.value == AlreadyConfirmed && r.mail.None?
    ensures found.Some? && !found.value.confirmed ==>
      r.result.value == CheckYourEmail && r.mail == Some(SendEmail(found.value.email, found.value.username, baseUrl))
  {
    if found.None? then
      Reply(Unhandled("AttributeError: 'NoneType' object has no attribute 'confirmed'"), None)
    else if found.value.confirmed then
      Reply(Ok(200, AlreadyConfirmed), None)
    else
      Reply(Ok(200, CheckYourEmail), Some(SendEmail(found.value.email, found.value.username, baseUrl)))
  }

  /** The unknown-email fault of the code as written. */
  lemma RequestEmailAsWrittenFailsForUnknownEmail(users: map<string, User>, email: string, baseUrl: string)
    requires UsersKeyed(users) && email !in users
    ensures RequestEmailAsWritten(GetUserByEmail(users, email), baseUrl).result.Unhandled?
  {
  }

  /**
   * `request_email` with the `None` check first, as its `if user:` guard intends: an unknown
   * email gets the same answer as an unconfirmed one and no mail. Where the code as written
   * does not raise, the two agree.
   */
  function RequestEmailReply(found: Option<User>, baseUrl: string): (r: Reply)
    ensures r.result.Ok? && r.result.status == 200
    ensures found.Some? ==> r == RequestEmailAsWritten(found, baseUrl)
    ensures r.mail.Some? <==> found.Some? && !found.value.confirmed
    ensures r.result.value == AlreadyConfirmed <==> found.Some? && found.value.confirmed
  {
    if found.Some? && found.value.confirmed then
      Reply(Ok(200, AlreadyConfirmed), None)
    else if found.Some? then
      Reply(Ok(200, CheckYourEmail), Some(SendEmail(found.value.email, found.value.username, baseUrl)))
    else
      Reply(Ok(200, CheckYourEmail), None)
  }

  /** With the check first, an unknown email answers like an unconfirmed account. */
  lemma RequestEmailHidesUnknownEmails(user: User, baseUrl: string)
    requires !user.confirmed
    ensures RequestEmailReply(None, baseUrl).result == RequestEmailReply(Some(user), baseUrl).result
  {
  }

  /**
   * `request_email`: "already confirmed" and no mail for a confirmed user; one mail and
   * "Check your email" for an unconfirmed one; for an unknown email the same answer, no mail.
   */
  method RequestEmail(db: Db, bt: BackgroundTasks, email: string, baseUrl: string) returns (r: Result<string>)
    requires db.Valid()
    modifies bt
    ensures email in db.users && db.users[email].confirmed ==>
      r == Ok(200, AlreadyConfirmed) && bt.tasks == old(bt.tasks)
    ensures email in db.users && !db.users[email].confirmed ==>
      && r == Ok(200, CheckYourEmail)
      && bt.tasks == old(bt.tasks) + [SendEmail(email, db.users[email].username, baseUrl)]
    ensures email !in db.users ==> r == Ok(200, CheckYourEmail) && bt.tasks == old(bt.tasks)
  {
    var reply := RequestEmailReply(GetUserByEmail(db.users, email), baseUrl);
    if reply.mail.Some? {
      bt.AddTask(reply.mail.value);
    }
    r := reply.result;
  }

  /**
   * The sign-up flow end to end: a new account cannot log in until it is confirmed, then it
   * can; registering the same email again is refused.
   */
  method SignUpFlow(
    db: Db, bt: BackgroundTasks, ctx: PasswordContext,
    email: string, username: string, password: string, baseUrl: string)
    returns (registered: Result<Registration>, early: Result<TokenPair>, confirmation: Result<string>,
             late: Result<TokenPair>, again: Result<Registration>)
    requires db.Valid() && Sound(ctx)
    requires email !in db.users
    requires 3 <= |username| <= 50
    modifies db, bt
    ensures registered.Ok? && registered.status == 201
    ensures early == Err(EmailNotConfirmed)
    ensures confirmation == Ok(200, EmailConfirmed)
    ensures late == Ok(200, TokensFor(email))
    ensures again == Err(UserAlreadyExists)
  {
    registered := Register(db, bt, ctx, email, username, password, baseUrl);
    early := Login(db.users, ctx, email, password);
    confirmation := ConfirmedEmail(db, email);
    late := Login(db.users, ctx, email, password);
    again := Register(db, bt, ctx, email, username, password, baseUrl);
  }
}
