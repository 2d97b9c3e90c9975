/**
 * The records of the service: users and contacts as the database holds them, the
 * `ContactCreate` payload, the tokens a login issues, the verification mails queued
 * for sending, and the password hashing context.
 */
module Models {
  import opened Wrappers

  /** A calendar date (Python's `datetime.date`). */
  datatype Date = Date(year: int, month: int, day: int)

  /** A row of the users table; `email` is the login key and the token subject. */
  datatype User = User(
    id: int,
    email: string,
    username: string,
    hashedPassword: string,
    confirmed: bool,
    avatar: Option<string>)

  /** The fields a client supplies for a contact (schema `ContactCreate`). */
  datatype ContactCreate = ContactCreate(
    firstName: string,
    lastName: string,
    email: string,
    phoneNumber: string,
    birthday: Date,
    additionalData: Option<string>)

  /** A row of the contacts table: the `ContactCreate` fields plus the row id and the owner's id. */
  datatype Contact = Contact(
    id: int,
    firstName: string,
    lastName: string,
    email: string,
    phoneNumber: string,
    birthday: Date,
    additionalData: Option<string>,
    userId: int)

  /** The client-supplied part of a contact row. */
  function Data(c: Contact): ContactCreate
  {
    ContactCreate(c.firstName, c.lastName, c.email, c.phoneNumber, c.birthday, c.additionalData)
  }

  /** `Contact(**data.dict(), user_id=userId)` once the database has given it the id `id`. */
  function NewContact(id: int, data: ContactCreate, userId: int): (c: Contact)
    ensures Data(c) == data && c.id == id && c.userId == userId
  {
    Contact(id, data.firstName, data.lastName, data.email, data.phoneNumber, data.birthday,
            data.additionalData, userId)
  }

  /** The keys of `ContactCreate.dict()`. */
  datatype Field = FirstName | LastName | Email | PhoneNumber | Birthday | AdditionalData

  /** The keys of `ContactCreate.dict()` in declaration order, as the `setattr` loops visit them. */
  const ContactCreateFields: seq<Field> := [FirstName, LastName, Email, PhoneNumber, Birthday, AdditionalData]

  /** A value of `ContactCreate.dict()`. */
  datatype FieldValue = Text(text: string) | Day(date: Date) | MaybeText(opt: Option<string>)

  /** Whether `v` has the type of field `f`. */
  predicate Fits(f: Field, v: FieldValue)
  {
    match f
    case Birthday => v.Day?
    case AdditionalData => v.MaybeText?
    case _ => v.Text?
  }

  /** `data.dict()[f]`. */
  function Get(data: ContactCreate, f: Field): (v: FieldValue)
    ensures Fits(f, v)
  {
    match f
    case FirstName => Text(data.firstName)
    case LastName => Text(data.lastName)
    case Email => Text(data.email)
    case PhoneNumber => Text(data.phoneNumber)
    case Birthday => Day(data.birthday)
    case AdditionalData => MaybeText(data.additionalData)
  }

  /** `getattr(c, f)`. */
  function GetAttr(c: Contact, f: Field): FieldValue
  {
    Get(Data(c), f)
  }

  /** Two payloads that agree on every key are equal. */
  lemma FieldsDetermineData(d1: ContactCreate, d2: ContactCreate)
    requires forall f :: Get(d1, f) == Get(d2, f)
    ensures d1 == d2
  {
    assert Get(d1, FirstName) == Get(d2, FirstName);
    assert Get(d1, LastName) == Get(d2, LastName);
    assert Get(d1, Email) == Get(d2, Email);
    assert Get(d1, PhoneNumber) == Get(d2, PhoneNumber);
    assert Get(d1, Birthday) == Get(d2, Birthday);
    assert Get(d1, AdditionalData) == Get(d2, AdditionalData);
  }

  /** `setattr(c, f, v)`: field `f` takes the value `v`, every other attribute is kept. */
  function SetAttr(c: Contact, f: Field, v: FieldValue): (r: Contact)
    requires Fits(f, v)
    ensures GetAttr(r, f) == v
    ensures forall g :: g != f ==> GetAttr(r, g) == GetAttr(c, g)
    ensures r.id == c.id && r.userId == c.userId
  {
    match f
    case FirstName => c.(firstName := v.text)
    case LastName => c.(lastName := v.text)
    case Email => c.(email := v.text)
    case PhoneNumber => c.(phoneNumber := v.text)
    case Birthday => c.(birthday := v.date)
    case AdditionalData => c.(additionalData := v.opt)
  }

  /** A signed token, represented by the claims it carries: `{"sub": email}`. */
  datatype Token = AccessToken(sub: string) | RefreshToken(sub: string)

  /** The token pair returned by registration and login. */
  datatype TokenPair = TokenPair(accessToken: Token, refreshToken: Token, tokenType: string)

  /** The tokens issued for `email`, with token type "bearer". */
  function TokensFor(email: string): TokenPair
  {
    TokenPair(AccessToken(email), RefreshToken(email), "bearer")
  }

  /** A queued `send_email(email, username, host)` background task. */
  datatype Mail = SendEmail(email: string, username: string, host: string)

  /** A request's `BackgroundTasks`: the tasks run after the response is sent. */
  class BackgroundTasks {
    var tasks: seq<Mail>

    constructor ()
      ensures tasks == []
    {
      tasks := [];
    }

    method AddTask(m: Mail)
      modifies this
      ensures tasks == old(tasks) + [m]
    {
      tasks := tasks + [m];
    }
  }

  /** The password hashing context (`pwd_context`): one-way hashing and verification. */
  datatype PasswordContext = PasswordContext(hash: string -> string, verify: (string, string) -> bool)

  /** A context whose verification accepts every password against its own hash. */
  ghost predicate Sound(ctx: PasswordContext)
  {
    forall p :: ctx.verify(p, ctx.hash(p))
  }
}
