/**
 * The data-access layer (src/repository/repository.py): queries over the users and
 * contacts tables, and the in-place updates of their rows. The database session is
 * the class `Db`; each call is one atomic update of its tables.
 */
module Repository {
  import opened Wrappers
  import opened Models
  import opened Http
  import Seqs

  /** Every user is stored under its own email, so emails are unique. */
  ghost predicate UsersKeyed(users: map<string, User>)
  {
    forall e :: e in users ==> users[e].email == e
  }

  ghost predicate UserIdsUnique(users: map<string, User>)
  {
    forall e1, e2 :: e1 in users && e2 in users && e1 != e2 ==> users[e1].id != users[e2].id
  }

  /** `id` is the primary key of the contacts table. */
  ghost predicate ContactIdsUnique(cs: seq<Contact>)
  {
    forall i, j :: 0 <= i < j < |cs| ==> cs[i].id != cs[j].id
  }

  /** No user that was confirmed before is missing or unconfirmed after. */
  ghost predicate ConfirmationKept(before: map<string, User>, after: map<string, User>)
  {
    forall e :: e in before && before[e].confirmed ==> e in after && after[e].confirmed
  }

  /** `select(User).filter(User.email == email)`, first row or `None`. */
  function GetUserByEmail(users: map<string, User>, email: string): (r: Option<User>)
    requires UsersKeyed(users)
    ensures r.Some? ==> r.value in users.Values && r.value.email == email
    ensures r.None? <==> forall u :: u in users.Values ==> u.email != email
  {
    if email in users then Some(users[email]) else None
  }

  /** The users table after `confirmed_email(email)`. */
  function Confirmed(users: map<string, User>, email: string): (r: map<string, User>)
    requires email in users
    ensures r.Keys == users.Keys
    ensures r[email].confirmed
    ensures r[email].(confirmed := users[email].confirmed) == users[email]
    ensures forall e :: e in users && e != email ==> r[e] == users[e]
    ensures ConfirmationKept(users, r)
  {
    users[email := users[email].(confirmed := true)]
  }

  /** The users table after setting the avatar of `email` to `url`. */
  function WithAvatar(users: map<string, User>, email: string, url: Option<string>): (r: map<string, User>)
    requires email in users
    ensures r.Keys == users.Keys
    ensures r[email].avatar == url
    ensures r[email].(avatar := users[email].avatar) == users[email]
    ensures forall e :: e in users && e != email ==> r[e] == users[e]
    ensures ConfirmationKept(users, r)
  {
    users[email := users[email].(avatar := url)]
  }

  /** The filter `Contact.id == contactId, Contact.user_id == user.id`. */
  predicate Matches(c: Contact, contactId: int, user: User)
  {
    c.id == contactId && c.userId == user.id
  }

  /** The position of the first row that `Matches`, if any. */
  function FindContact(cs: seq<Contact>, contactId: int, user: User): (r: Option<nat>)
    ensures r.Some? ==> r.value < |cs| && Matches(cs[r.value], contactId, user)
    ensures r.Some? ==> forall i :: 0 <= i < r.value ==> !Matches(cs[i], contactId, user)
    ensures r.None? ==> forall i :: 0 <= i < |cs| ==> !Matches(cs[i], contactId, user)
  {
    if cs == [] then None
    else if Matches(cs[0], contactId, user) then Some(0)
    else match FindContact(cs[1..], contactId, user)
      case None => None
      case Some(i) => Some(i + 1)
  }

  /** `get_contact`: the contact with id `contactId` if `user` owns it, otherwise `None`. */
  function GetContact(cs: seq<Contact>, contactId: int, user: User): (r: Option<Contact>)
    ensures r.Some? ==> r.value in cs && r.value.id == contactId && r.value.userId == user.id
    ensures r.None? <==> forall c :: c in cs ==> !(c.id == contactId && c.userId == user.id)
  {
    match FindContact(cs, contactId, user)
    case None => None
    case Some(i) => Some(cs[i])
  }

  /** The rows of the contacts table owned by `userId`, in table order. */
  function OwnedBy(cs: seq<Contact>, userId: int): (r: seq<Contact>)
  {
    Seqs.Filter(cs, (c: Contact) => c.userId == userId)
  }

  /** `get_contacts`: the page of `userId`'s contacts that skips `offset` and holds at most `limit`. */
  function GetContacts(cs: seq<Contact>, userId: int, limit: nat, offset: nat): (r: seq<Contact>)
    ensures |r| <= limit
    ensures forall c :: c in r ==> c in cs && c.userId == userId
    ensures var owned := OwnedBy(cs, userId);
      && |r| == (if offset >= |owned| then 0 else if |owned| - offset < limit then |owned| - offset else limit)
      && forall i :: 0 <= i < |r| ==> r[i] == owned[offset + i]
  {
    var owned := OwnedBy(cs, userId);
    if offset >= |owned| then []
    else if |owned| - offset < limit then owned[offset..]
    else owned[offset..offset + limit]
  }

  /** The contacts table without the row whose id is `contactId`. */
  function Removed(cs: seq<Contact>, contactId: int): seq<Contact>
  {
    Seqs.Filter(cs, (c: Contact) => c.id != contactId)
  }

  /** Removing rows keeps the primary key unique. */
  lemma {:induction false} FilterKeepsIdsUnique(cs: seq<Contact>, p: Contact -> bool)
    requires ContactIdsUnique(cs)
    ensures ContactIdsUnique(Seqs.Filter(cs, p))
  {
    if cs != [] {
      FilterKeepsIdsUnique(cs[1..], p);
      var rest := Seqs.Filter(cs[1..], p);
      forall c | c in rest
        ensures c.id != cs[0].id
      {
        var j :| 0 <= j < |cs[1..]| && cs[1..][j] == c;
        assert cs[j + 1] == c;
      }
    }
  }

  /** Removing the one row with a given id shortens the table by exactly one row. */
  lemma {:induction false} RemovedOneRow(cs: seq<Contact>, k: nat)
    requires ContactIdsUnique(cs) && k < |cs|
    ensures |Removed(cs, cs[k].id)| == |cs| - 1
  {
    var id := cs[k].id;
    if k == 0 {
      forall c | c in cs[1..]
        ensures c.id != id
      {
        var j :| 0 <= j < |cs[1..]| && cs[1..][j] == c;
        assert cs[j + 1] == c;
      }
      Seqs.FilterKeepsAll(cs[1..], (c: Contact) => c.id != id);
    } else {
      assert cs[1..][k - 1] == cs[k];
      RemovedOneRow(cs[1..], k - 1);
    }
  }

  /** The contacts table with the row whose id is `c.id` replaced by `c`. */
  function Replaced(cs: seq<Contact>, c: Contact): (r: seq<Contact>)
    ensures |r| == |cs|
    ensures forall i :: 0 <= i < |cs| ==> r[i] == if cs[i].id == c.id then c else cs[i]
    ensures ContactIdsUnique(cs) ==> forall k :: 0 <= k < |cs| && cs[k].id == c.id ==> r == cs[k := c]
    ensures (forall i :: 0 <= i < |cs| ==> cs[i].id != c.id) ==> r == cs
  {
    seq(|cs|, i requires 0 <= i < |cs| => if cs[i].id == c.id then c else cs[i])
  }

  /**
   * The `setattr` loop over `contact.dict()`: every `ContactCreate` field of `c` takes the
   * value from `data`, while the row id and the owner stay.
   */
  method ApplyFields(c: Contact, data: ContactCreate) returns (r: Contact)
    ensures Data(r) == data
    ensures r.id == c.id && r.userId == c.userId
  {
    var fields := ContactCreateFields;
    r := c;
    for i := 0 to |fields|
      invariant r.id == c.id && r.userId == c.userId
      invariant forall j :: 0 <= j < i ==> GetAttr(r, fields[j]) == Get(data, fields[j])
    {
      var f := fields[i];
      assert forall j :: 0 <= j < i ==> fields[j] != f;
      r := SetAttr(r, f, Get(data, f));
    }
    forall f
      ensures Get(Data(r), f) == Get(data, f)
    {
      assert f == fields[0] || f == fields[1] || f == fields[2] || f == fields[3]
          || f == fields[4] || f == fields[5];
    }
    FieldsDetermineData(Data(r), data);
  }

  /** The database session: the users and contacts tables and their id sequences. */
  class Db {
    var users: map<string, User>
    var contacts: seq<Contact>
    var nextUserId: int
    var nextContactId: int

    ghost predicate Valid()
      reads this
    {
      && UsersKeyed(users)
      && UserIdsUnique(users)
      && (forall e :: e in users ==> users[e].id < nextUserId)
      && ContactIdsUnique(contacts)
      && (forall i :: 0 <= i < |contacts| ==> contacts[i].id < nextContactId)
    }

    /** An empty database. */
    constructor ()
      ensures Valid()
      ensures users == map[] && contacts == []
    {
      users := map[];
      contacts := [];
      nextUserId := 1;
      nextContactId := 1;
    }

    /** `db.add(User(...))` and commit: a new unconfirmed user without avatar, with a fresh id. */
    method AddUser(email: string, username: string, hashedPassword: string) returns (user: User)
      requires Valid()
      requires email !in users
      modifies this
      ensures Valid()
      ensures user == User(user.id, email, username, hashedPassword, false, None)
      ensures forall u :: u in old(users).Values ==> u.id != user.id
      ensures users == old(users)[email := user]
      ensures contacts == old(contacts)
    {
      user := User(nextUserId, email, username, hashedPassword, false, None);
      users := users[email := user];
      nextUserId := nextUserId + 1;
    }

    /** `confirmed_email`: the user with this email becomes confirmed; nothing else changes. */
    method ConfirmedEmail(email: string)
      requires Valid()
      requires email in users
      modifies this
      ensures Valid()
      ensures users == Confirmed(old(users), email)
      ensures contacts == old(contacts)
    {
      users := Confirmed(users, email);
    }

    /** `update_avatar_url`: 404 for an unknown email, otherwise the avatar becomes `url`. */
    method UpdateAvatarUrl(email: string, url: Option<string>) returns (r: Result<User>)
      requires Valid()
      modifies this
      ensures Valid()
      ensures contacts == old(contacts)
      ensures email !in old(users) ==> r == Err(HttpError(404, "User not found", [])) && users == old(users)
      ensures email in old(users) ==>
        && users == WithAvatar(old(users), email, url)
        && r == Ok(200, users[email])
    {
      var user := GetUserByEmail(users, email);
      if user.None? {
        return Err(HttpError(404, "User not found", []));
      }
      users := WithAvatar(users, email, url);
      r := Ok(200, users[email]);
    }

    /** `db.add(Contact(**data.dict(), user_id=userId))` and commit: a new row with a fresh id. */
    method AddContact(data: ContactCreate, userId: int) returns (c: Contact)
      requires Valid()
      modifies this
      ensures Valid()
      ensures Data(c) == data && c.userId == userId
      ensures forall d :: d in old(contacts) ==> d.id != c.id
      ensures contacts == old(contacts) + [c]
      ensures users == old(users)
    {
      c := NewContact(nextContactId, data, userId);
      contacts := contacts + [c];
      nextContactId := nextContactId + 1;
    }

    /** Commit of a modified row: the row with `c`'s id now holds `c`. */
    method SaveContact(c: Contact)
      requires Valid()
      modifies this
      ensures Valid()
      ensures contacts == Replaced(old(contacts), c)
      ensures users == old(users)
    {
      contacts := Replaced(contacts, c);
    }

    /** `db.delete(c)` and commit: the row with `c`'s id is gone, the others keep their order. */
    method Delete(c: Contact)
      requires Valid()
      modifies this
      ensures Valid()
      ensures contacts == Removed(old(contacts), c.id)
      ensures forall d :: d in contacts <==> d in old(contacts) && d.id != c.id
      ensures users == old(users)
    {
      FilterKeepsIdsUnique(contacts, (d: Contact) => d.id != c.id);
      contacts := Removed(contacts, c.id);
      forall i | 0 <= i < |contacts|
        ensures contacts[i].id < nextContactId
      {
        assert contacts[i] in old(contacts);
      }
    }

    /**
     * `update_contact`: overwrites every `ContactCreate` field of the contact `user` owns with
     * this id and returns it; `None` and no change when there is no such contact.
     */
    method UpdateContact(contactId: int, contact: ContactCreate, user: User) returns (r: Option<Contact>)
      requires Valid()
      modifies this
      ensures Valid()
      ensures users == old(users)
      ensures r.None? <==> GetContact(old(contacts), contactId, user).None?
      ensures r.None? ==> contacts == old(contacts)
      ensures r.Some? ==>
        && Data(r.value) == contact && r.value.id == contactId && r.value.userId == user.id
        && contacts == Replaced(old(contacts), r.value)
    {
      var found := GetContact(contacts, contactId, user);
      if found.None? {
        return None;
      }
      var updated := ApplyFields(found.value, contact);
      SaveContact(updated);
      r := Some(updated);
    }

    /**
     * `delete_contact`: removes the contact `user` owns with this id and returns it; `None`
     * and no change when there is no such contact.
     */
    method DeleteContact(contactId: int, user: User) returns (r: Option<Contact>)
      requires Valid()
      modifies this
      ensures Valid()
      ensures users == old(users)
      ensures r == GetContact(old(contacts), contactId, user)
      ensures r.None? ==> contacts == old(contacts)
      ensures r.Some? ==>
        && |contacts| == |old(contacts)| - 1
        && forall d :: d in contacts <==> d in old(contacts) && d != r.value
    {
      r := GetContact(contacts, contactId, user);
      if r.Some? {
        ghost var k :| 0 <= k < |contacts| && contacts[k] == r.value;
        RemovedOneRow(contacts, k);
        Delete(r.value);
        forall d | d in old(contacts) && d.id == r.value.id
          ensures d == r.value
        {
          var j :| 0 <= j < |old(contacts)| && old(contacts)[j] == d;
          assert j == k;
        }
      }
    }
  }
}
