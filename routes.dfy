/**
 * The contact endpoints (src/routes/routes.py): each acts for the resolved current user and
 * touches only that user's contacts. Paging is `Repository.GetContacts`; the duplicate
 * `get_contact` of this file is `Repository.GetContact`.
 */
module Routes {
  import opened Wrappers
  import opened Models
  import opened Http
  import opened Repository
  import opened Calendar
  import Seqs
  import Like

  const ContactNotFound := HttpError(404, "Contact not found", [])
  const ErrorUpdateContact := HttpError(500, "Error update contact", [])

  /** `create_contact`: one new row owned by the current user, holding the given fields. */
  method CreateContact(db: Db, contactData: ContactCreate, currentUser: User) returns (r: Result<Contact>)
    requires db.Valid()
    modifies db
    ensures db.Valid()
    ensures db.users == old(db.users)
    ensures r.Ok? && r.status == 201
    ensures Data(r.value) == contactData && r.value.userId == currentUser.id
    ensures forall c :: c in old(db.contacts) ==> c.id != r.value.id
    ensures db.contacts == old(db.contacts) + [r.value]
  {
    var c := db.AddContact(contactData, currentUser.id);
    r := Ok(201, c);
  }

  /** `read_contact`: the contact with this id if the current user owns it, 404 otherwise. */
  function ReadContact(contacts: seq<Contact>, contactId: int, currentUser: User): (r: Result<Contact>)
    ensures r.Ok? || r == Err(ContactNotFound)
    ensures r.Ok? <==> exists c :: c in contacts && c.id == contactId && c.userId == currentUser.id
    ensures r.Ok? ==>
      && r.status == 200
      && r.value in contacts && r.value.id == contactId && r.value.userId == currentUser.id
  {
    var found := GetContact(contacts, contactId, currentUser);
    if found.None? || found.value.userId != currentUser.id then Err(ContactNotFound)
    else Ok(200, found.value)
  }

  /**
   * `update_contact_`: 404 unless the current user owns the contact; otherwise every
   * `ContactCreate` field is overwritten on that row alone. `commitSucceeds` is the outcome of
   * the commit: when it fails the session is rolled back, the table is as before and the
   * answer is 500.
   */
  method UpdateContact(db: Db, contactId: int, contact: ContactCreate, currentUser: User, commitSucceeds: bool)
    returns (r: Result<Contact>)
    requires db.Valid()
    modifies db
    ensures db.Valid()
    ensures db.users == old(db.users)
    ensures GetContact(old(db.contacts), contactId, currentUser).None? ==>
      r == Err(ContactNotFound) && db.contacts == old(db.contacts)
    ensures GetContact(old(db.contacts), contactId, currentUser).Some? && !commitSucceeds ==>
      r == Err(ErrorUpdateContact) && db.contacts == old(db.contacts)
    ensures GetContact(old(db.contacts), contactId, currentUser).Some? && commitSucceeds ==>
      && r.Ok? && r.status == 200
      && Data(r.value) == contact && r.value.id == contactId && r.value.userId == currentUser.id
      && db.contacts == Replaced(old(db.contacts), r.value)
  {
    var found := GetContact(db.contacts, contactId, currentUser);
    if found.None? || found.value.userId != currentUser.id {
      return Err(ContactNotFound);
    }
    var updated := ApplyFields(found.value, contact);
    if !commitSucceeds {
      return Err(ErrorUpdateContact);
    }
    db.SaveContact(updated);
    r := Ok(200, updated);
  }

  /** `delete_contact_`: removes the contact only if the current user owns it; 404 and no change otherwise. */
  method DeleteContact(db: Db, contactId: int, currentUser: User) returns (r: Result<()>)
    requires db.Valid()
    modifies db
    ensures db.Valid()
    ensures db.users == old(db.users)
    ensures GetContact(old(db.contacts), contactId, currentUser).None? ==>
      r == Err(ContactNotFound) && db.contacts == old(db.contacts)
    ensures GetContact(old(db.contacts), contactId, currentUser).Some? ==>
      && r == Ok(204, ())
      && |db.contacts| == |old(db.contacts)| - 1
      && forall c :: c in db.contacts <==> c in old(db.contacts) && c.id != contactId
  {
    var found := GetContact(db.contacts, contactId, currentUser);
    if found.None? || found.value.userId != currentUser.id {
      return Err(ContactNotFound);
    }
    ghost var k :| 0 <= k < |db.contacts| && db.contacts[k] == found.value;
    RemovedOneRow(db.contacts, k);
    db.Delete(found.value);
    r := Ok(204, ());
  }

  /** A search filter: `None` and "" impose nothing, otherwise `field ILIKE '%term%'`. */
  predicate FilterMatches(term: Option<string>, field: string)
  {
    term.None? || term.value == [] || Like.ILike(field, "%" + term.value + "%")
  }

  /** The search condition on one row: owned by `userId` and passing all three filters. */
  predicate SearchMatch(c: Contact, userId: int, firstName: Option<string>, lastName: Option<string>, email: Option<string>)
  {
    && c.userId == userId
    && FilterMatches(firstName, c.firstName)
    && FilterMatches(lastName, c.lastName)
    && FilterMatches(email, c.email)
  }

  /** `search_contacts`: the current user's contacts that pass every given filter. */
  function SearchContacts(
    contacts: seq<Contact>, currentUser: User,
    firstName: Option<string>, lastName: Option<string>, email: Option<string>)
    : (r: seq<Contact>)
    ensures forall c :: c in r ==> c in contacts && c.userId == currentUser.id
    ensures forall c :: c in r <==> c in contacts && SearchMatch(c, currentUser.id, firstName, lastName, email)
  {
    Seqs.Filter(contacts, (c: Contact) => SearchMatch(c, currentUser.id, firstName, lastName, email))
  }

  /**
   * For search terms without LIKE wildcards, a contact is found exactly when it is the current
   * user's and each given term occurs in its field, ignoring case.
   */
  lemma SearchIsCaseInsensitiveSubstring(
    contacts: seq<Contact>, currentUser: User,
    firstName: string, lastName: string, email: string, c: Contact)
    requires Like.WildcardFree(firstName) && Like.WildcardFree(lastName) && Like.WildcardFree(email)
    ensures c in SearchContacts(contacts, currentUser, Some(firstName), Some(lastName), Some(email)) <==>
      && c in contacts && c.userId == currentUser.id
      && Like.IsSubstring(Like.Lower(firstName), Like.Lower(c.firstName))
      && Like.IsSubstring(Like.Lower(lastName), Like.Lower(c.lastName))
      && Like.IsSubstring(Like.Lower(email), Like.Lower(c.email))
  {
    Like.ILikeContains(firstName, c.firstName);
    Like.ILikeContains(lastName, c.lastName);
    Like.ILikeContains(email, c.email);
    if firstName == [] {
      assert Like.OccursAt(Like.Lower(firstName), Like.Lower(c.firstName), 0);
    }
    if lastName == [] {
      assert Like.OccursAt(Like.Lower(lastName), Like.Lower(c.lastName), 0);
    }
    if email == [] {
      assert Like.OccursAt(Like.Lower(email), Like.Lower(c.email), 0);
    }
  }

  /**
   * The birthday condition as written: same month as today from today's day on, or the month
   * of today + 7 days up to that day. When both dates fall in one month it admits that whole
   * month (see `BirthdayFilterAsWrittenAdmitsWholeMonth`).
   */
  function BirthdayFilterAsWritten(birthday: Date, today: Date): (r: bool)
    requires ValidDate(today)
    ensures IsUpcomingBirthday(birthday, today) ==> r
    ensures r ==> birthday.month == today.month || birthday.month == NextMonth(today.month)
  {
    AddDaysShape(today, 7);
    AsWrittenBefore(birthday, today, AddDays(today, 7))
  }

  /** The condition as written for a given end date `upcoming` of the week. */
  predicate AsWrittenBefore(birthday: Date, today: Date, upcoming: Date)
  {
    || (birthday.month == today.month && birthday.day >= today.day)
    || (birthday.month == upcoming.month && birthday.day <= upcoming.day)
  }

  /** When today and today + 7 days share a month, the condition as written admits every day of it. */
  lemma BirthdayFilterAsWrittenAdmitsWholeMonth(birthday: Date, today: Date)
    requires ValidDate(today) && AddDays(today, 7).month == today.month
    ensures BirthdayFilterAsWritten(birthday, today) <==> birthday.month == today.month
  {
    var upcoming := AddDays(today, 7);
    AddDaysShape(today, 7);
    assert upcoming.day == today.day + 7;
    assert BirthdayFilterAsWritten(birthday, today) == AsWrittenBefore(birthday, today, upcoming);
  }

  /** A birthday 26 days ahead of 5 January is reported as upcoming. */
  lemma BirthdayFilterAsWrittenCounterexample()
    ensures BirthdayFilterAsWritten(Date(1990, 1, 31), Date(2024, 1, 5))
    ensures !IsUpcomingBirthday(Date(1990, 1, 31), Date(2024, 1, 5))
  {
    YearKept(Date(2024, 1, 5), 7);
  }

  /** The birthday condition with the upper bound applied also when the week stays in one month. */
  predicate IsUpcomingBirthday(birthday: Date, today: Date)
    requires ValidDate(today)
  {
    UpcomingBefore(birthday, today, AddDays(today, 7))
  }

  /** The corrected condition for a given end date `upcoming` of the week. */
  predicate UpcomingBefore(birthday: Date, today: Date, upcoming: Date)
  {
    if upcoming.month == today.month then
      birthday.month == today.month && today.day <= birthday.day <= upcoming.day
    else
      || (birthday.month == today.month && birthday.day >= today.day)
      || (birthday.month == upcoming.month && birthday.day <= upcoming.day)
  }

  /** Month and day of `a` come no later in the year than those of `b`. */
  predicate MonthDayLe(a: Date, b: Date)
  {
    a.month < b.month || (a.month == b.month && a.day <= b.day)
  }

  /** The month and day of `d` lie in the yearly window from `from` to `to`, wrapping at the new year. */
  predicate InMonthDayWindow(d: Date, from: Date, to: Date)
  {
    if MonthDayLe(from, to) then MonthDayLe(from, d) && MonthDayLe(d, to)
    else MonthDayLe(from, d) || MonthDayLe(d, to)
  }

  /** The corrected condition selects exactly the month-days from today to today + 7 days. */
  lemma UpcomingBirthdayIsWeekWindow(birthday: Date, today: Date)
    requires ValidDate(today) && ValidDate(birthday)
    ensures IsUpcomingBirthday(birthday, today) <==> InMonthDayWindow(birthday, today, AddDays(today, 7))
  {
    AddDaysShape(today, 7);
    WeekWindow(birthday, today, AddDays(today, 7));
  }

  /** `UpcomingBefore` is the window test for any end date shaped like today + 7 days. */
  lemma WeekWindow(birthday: Date, today: Date, upcoming: Date)
    requires ValidDate(today) && 1 <= birthday.month <= 12
    requires today.day + 7 <= DaysInMonth(today.year, today.month) ==>
      upcoming.month == today.month && upcoming.day == today.day + 7
    requires today.day + 7 > DaysInMonth(today.year, today.month) ==>
      upcoming.month == NextMonth(today.month) && upcoming.day == today.day + 7 - DaysInMonth(today.year, today.month)
    ensures UpcomingBefore(birthday, today, upcoming) <==> InMonthDayWindow(birthday, today, upcoming)
  {
    if today.day + 7 <= DaysInMonth(today.year, today.month) {
      assert MonthDayLe(today, upcoming);
    } else if today.month < 12 {
      assert MonthDayLe(today, upcoming);
    } else {
      assert !MonthDayLe(today, upcoming);
    }
  }

  /** Each of the next seven days (and today) is an upcoming birthday. */
  lemma NextWeekIsUpcoming(today: Date, k: nat)
    requires ValidDate(today) && k <= 7
    ensures IsUpcomingBirthday(AddDays(today, k), today)
  {
    AddDaysShape(today, 7);
    AddDaysShape(today, k);
  }

  /** Where the week crosses into the next month, the condition as written was already right. */
  lemma BirthdayFilterAsWrittenAcrossMonths(birthday: Date, today: Date)
    requires ValidDate(today) && AddDays(today, 7).month != today.month
    ensures BirthdayFilterAsWritten(birthday, today) == IsUpcomingBirthday(birthday, today)
  {
    var upcoming := AddDays(today, 7);
    assert BirthdayFilterAsWritten(birthday, today) == AsWrittenBefore(birthday, today, upcoming);
    assert IsUpcomingBirthday(birthday, today) == UpcomingBefore(birthday, today, upcoming);
  }

  /** `get_upcoming_birthdays`, corrected: the current user's contacts whose birthday falls in the coming week. */
  function GetUpcomingBirthdays(contacts: seq<Contact>, currentUser: User, today: Date): (r: seq<Contact>)
    requires ValidDate(today)
    ensures forall c :: c in r <==>
      c in contacts && c.userId == currentUser.id && IsUpcomingBirthday(c.birthday, today)
  {
    Seqs.Filter(contacts, (c: Contact) => c.userId == currentUser.id && IsUpcomingBirthday(c.birthday, today))
  }

  /**
   * `get_upcoming_birthdays` as written: the current user's contacts passing the condition as
   * written. It returns every contact the corrected handler returns, and possibly more.
   */
  function GetUpcomingBirthdaysAsWritten(contacts: seq<Contact>, currentUser: User, today: Date): (r: seq<Contact>)
    requires ValidDate(today)
    ensures forall c :: c in r <==>
      c in contacts && c.userId == currentUser.id && BirthdayFilterAsWritten(c.birthday, today)
    ensures forall c :: c in GetUpcomingBirthdays(contacts, currentUser, today) ==> c in r
  {
    Seqs.Filter(contacts, (c: Contact) => c.userId == currentUser.id && BirthdayFilterAsWritten(c.birthday, today))
  }

  /** On 5 January the handler as written returns a contact born on 31 January; the corrected one does not. */
  lemma UpcomingBirthdaysAsWrittenCounterexample(c: Contact, currentUser: User)
    requires c.userId == currentUser.id && c.birthday == Date(1990, 1, 31)
    ensures c in GetUpcomingBirthdaysAsWritten([c], currentUser, Date(2024, 1, 5))
    ensures c !in GetUpcomingBirthdays([c], currentUser, Date(2024, 1, 5))
  {
    BirthdayFilterAsWrittenCounterexample();
  }
}
