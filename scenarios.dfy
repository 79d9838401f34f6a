/** Short sessions with the manager, started from an empty registry, and
    the outcome each call is guaranteed to have. */
module Scenarios {
  import opened Lists
  import opened Dates
  import opened Models
  import opened Managers

  /** The moment the sessions run: 18 October 2026, 09:30. */
  const Now := DateTime(Date(18, 10, 2026), 34_200_000_000)

  /** Dates refused at that moment: none, a wrong layout, yesterday, and
      today, whose midnight has already gone by. */
  lemma DateRefusals()
    ensures CheckDate("", Now) == Err(EmptyDate)
    ensures CheckDate("2099-01-01", Now) == Err(InvalidBookingDate(Malformed))
    ensures CheckDate("17-10-2026", Now) == Err(InvalidBookingDate(InPast))
    ensures CheckDate("18-10-2026", Now) == Err(InvalidBookingDate(InPast))
  {
    ParseFormatted(Date(17, 10, 2026));
    assert FormatDate(Date(17, 10, 2026)) == "17-10-2026";
    ParseFormatted(Date(18, 10, 2026));
    assert FormatDate(Date(18, 10, 2026)) == "18-10-2026";
  }

  /** A future day is accepted in either spelling. */
  lemma FutureAccepted()
    ensures CheckDate("1-1-2099", Now) == Ok(Date(1, 1, 2099))
    ensures CheckDate("01-01-2099", Now) == Ok(Date(1, 1, 2099))
  {
    OneDigitSpelling();
  }

  /** Registering a name twice is refused, and so is an empty name; the
      first user is found by name. */
  method RegisterTwice() returns (again: Result<User>, empty: Result<User>, found: bool)
    ensures again == Err(DuplicateUser)
    ensures empty == Err(EmptyUserName)
    ensures found
  {
    var m := new SpaceManager();
    var created := m.CreateUser("alice");
    again := m.CreateUser("alice");
    empty := m.CreateUser("");
    found := m.FindUser("alice") == Some(created.value);
  }

  /** The date is judged before the space is looked up: a past date is
      refused even for a space that does not exist. */
  method DateBeforeSpace() returns (past: Outcome, missing: Outcome)
    ensures past == Fail(InvalidBookingDate(InPast))
    ensures missing == Fail(SpaceNotFound)
  {
    var m := new SpaceManager();
    var alice := m.CreateUser("alice");
    DateRefusals();
    past := m.BookSpace(alice.value, "Nowhere", "17-10-2026", Now);
    FutureAccepted();
    missing := m.BookSpace(alice.value, "Nowhere", "1-1-2099", Now);
  }

  /** Space names are shared by all users: a second user cannot reuse one. */
  method SharedNames() returns (sameName: Outcome)
    ensures sameName == Fail(SpaceAlreadyExists)
  {
    var m := new SpaceManager();
    var bob := m.CreateUser("bob");
    var carol := m.CreateUser("carol");
    var added := m.AddSpace(bob.value, "Studio", true);
    sameName := m.AddSpace(carol.value, "Studio", false);
  }

  /** Only the owner can remove a space; once removed it is gone from the
      registry. */
  method RemoveFree() returns (byOther: Outcome, free: Outcome, gone: bool)
    ensures byOther == Fail(SpaceNotFound)
    ensures free == Done
    ensures gone
  {
    var m := new SpaceManager();
    var alice := m.CreateUser("alice");
    var dave := m.CreateUser("dave");
    var a := m.AddSpace(alice.value, "Room2", false);
    byOther := m.RemoveSpace(dave.value, "Room2");
    free := m.RemoveSpace(alice.value, "Room2");
    gone := m.FindSpace("Room2").None?;
  }
}
