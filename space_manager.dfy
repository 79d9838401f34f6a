/** The space manager: the registry of users and spaces, and the rules that
    guard creating users, adding and removing spaces and booking them. */
module Managers {
  import opened Lists
  import opened Dates
  import opened Models

  /** Which of the two date checks refused a booking date. */
  datatype DateProblem = Malformed | InPast

  /** One kind per place the manager raises; the comment names the Python
      exception raised there. */
  datatype Error =
    | DuplicateUser                            // ValueError
    | EmptyUserName                            // ValueError
    | InvalidSpaceName                         // InvalidSpaceNameException
    | SpaceAlreadyExists                       // SpaceAlreadyExistsException
    | SpaceNotFound                            // SpaceNotFoundException
    | SpaceHasBookings                         // SpaceHasBookingsException
    | NotInList                                // ValueError from list.remove
    | EmptyDate                                // ValueError
    | InvalidBookingDate(problem: DateProblem) // InvalidBookingDateException
    | PermissionDenied                         // PermissionError
    | DuplicateBooking                         // ValueError

  datatype Outcome = Done | Fail(error: Error)

  datatype Result<T> = Ok(value: T) | Err(error: Error)

  /** The date checks of a booking, made before any space is looked up: an
      empty date, a date that does not parse as day-month-year, a day whose
      midnight is already past. */
  function CheckDate(date: string, now: DateTime): (r: Result<Date>)
    requires ValidDateTime(now)
    ensures r == Err(EmptyDate) <==> date == []
    ensures r == Err(InvalidBookingDate(Malformed)) <==> date != [] && ParseDate(date).None?
    ensures r == Err(InvalidBookingDate(InPast)) <==>
      ParseDate(date).Some? && date != [] &&
      (DateBefore(ParseDate(date).value, now.date) || (ParseDate(date).value == now.date && now.micros > 0))
    ensures r.Ok? ==> ParseDate(date) == Some(r.value) && ValidDate(r.value)
    ensures r.Ok? ==> !DateBefore(r.value, now.date) && (r.value == now.date ==> now.micros == 0)
    ensures r.Ok? <==> date != [] && ParseDate(date).Some? && !IsPast(ParseDate(date).value, now)
  {
    if date == [] then Err(EmptyDate)
    else match ParseDate(date)
      case None => Err(InvalidBookingDate(Malformed))
      case Some(d) =>
        PastMeansEarlierOrToday(d, now);
        if IsPast(d, now) then Err(InvalidBookingDate(InPast)) else Ok(d)
  }

  /** Today is refused unless the clock stands exactly at midnight; later
      days are always accepted. */
  lemma TodayRefusedUnlessMidnight(date: string, now: DateTime)
    requires ValidDateTime(now) && ParseDate(date).Some?
    ensures ParseDate(date).value == now.date ==> (CheckDate(date, now).Ok? <==> now.micros == 0)
    ensures DateBefore(now.date, ParseDate(date).value) ==> CheckDate(date, now).Ok?
  {
  }

  /** The first space of `user` called `name`: the search of remove_space,
      which looks only at the user's own spaces. */
  function OwnedSpace(user: User, name: string): (r: Option<Space>)
    reads user
    ensures r.Some? ==> r.value in user.spaces && r.value.name == name
    ensures r.Some? ==> exists i | 0 <= i < |user.spaces| ::
      user.spaces[i] == r.value && forall j | 0 <= j < i :: user.spaces[j].name != name
    ensures r.None? <==> forall s | s in user.spaces :: s.name != name
  {
    match FirstIndex(user.spaces, (s: Space) => s.name == name)
    case None => None
    case Some(i) => Some(user.spaces[i])
  }

  class SpaceManager {
    var users: seq<User>
    var spaces: seq<Space>

    constructor ()
      ensures users == [] && spaces == [] && Valid()
    {
      users := [];
      spaces := [];
    }

    /** The invariants every operation keeps once all users involved are
        registered. */
    ghost predicate Valid()
      reads this, users, spaces
    {
      NamesUnique() && OwnershipConsistent() && BookingsConsistent()
    }

    /** User names are unique, and so are space names, across the whole
        system. */
    ghost predicate NamesUnique()
      reads this
    {
      (forall i, j | 0 <= i < j < |users| :: users[i].username != users[j].username)
      && (forall i, j | 0 <= i < j < |spaces| :: spaces[i].name != spaces[j].name)
    }

    /** Every registered space is owned by exactly one registered user, and
        every owned space is registered. */
    ghost predicate OwnershipConsistent()
      reads this, users
    {
      (forall u | u in users :: Distinct(u.spaces))
      && (forall u, s | u in users && s in u.spaces :: s in spaces)
      && (forall s | s in spaces :: exists u :: u in users && s in u.spaces)
      && (forall u, v, s | u in users && v in users && s in u.spaces && s in v.spaces :: u == v)
    }

    /** Each booking sits in the lists of its own user and its own space;
        the dates on one space are distinct strings; a private space is only
        booked by its owner. */
    ghost predicate BookingsConsistent()
      reads this, users, spaces
    {
      (forall s, b | s in spaces && b in s.bookings ::
         b.space == s && b.user in users && b in b.user.bookings
         && (s.isPrivate ==> s in b.user.spaces))
      && (forall s | s in spaces ::
            forall i, j | 0 <= i < j < |s.bookings| :: s.bookings[i].date != s.bookings[j].date)
      && (forall u, b | u in users && b in u.bookings ::
            b.user == u && b.space in spaces && b in b.space.bookings)
    }

    /** find_user: the first registered user with exactly this name. */
    function FindUser(username: string): (r: Option<User>)
      reads this
      ensures r.Some? ==> r.value.username == username
      ensures r.Some? ==> exists i | 0 <= i < |users| ::
        users[i] == r.value && forall j | 0 <= j < i :: users[j].username != username
      ensures r.None? <==> forall u | u in users :: u.username != username
    {
      match FirstIndex(users, (u: User) => u.username == username)
      case None => None
      case Some(i) => Some(users[i])
    }

    /** find_space: the first registered space with exactly this name. */
    function FindSpace(name: string): (r: Option<Space>)
      reads this
      ensures r.Some? ==> r.value.name == name
      ensures r.Some? ==> exists i | 0 <= i < |spaces| ::
        spaces[i] == r.value && forall j | 0 <= j < i :: spaces[j].name != name
      ensures r.None? <==> forall s | s in spaces :: s.name != name
    {
      match FirstIndex(spaces, (s: Space) => s.name == name)
      case None => None
      case Some(i) => Some(spaces[i])
    }

    /** create_user: a taken name is refused before an empty one; otherwise
        one new user is appended. */
    method CreateUser(username: string) returns (r: Result<User>)
      modifies this
      ensures spaces == old(spaces)
      ensures (exists u | u in old(users) :: u.username == username) ==>
        r == Err(DuplicateUser) && users == old(users)
      ensures (forall u | u in old(users) :: u.username != username) && username == [] ==>
        r == Err(EmptyUserName) && users == old(users)
      ensures (forall u | u in old(users) :: u.username != username) && username != [] ==>
        r.Ok? && fresh(r.value) && users == old(users) + [r.value]
      ensures r.Ok? ==> r.value.username == username && r.value.spaces == [] && r.value.bookings == []
      ensures old(Valid()) ==> Valid()
    {
      if FindUser(username).Some? {
        return Err(DuplicateUser);
      }
      if username == [] {
        return Err(EmptyUserName);
      }
      ghost var wasValid := Valid();
      var user := new User(username);
      users := users + [user];
      r := Ok(user);
      if wasValid {
        UserAdded(user);
      }
    }

    /** The invariants after a new user, with a name no registered user has
        and no spaces or bookings, has been registered. */
    twostate lemma UserAdded(new user: User)
      requires old(Valid())
      requires users == old(users) + [user] && spaces == old(spaces)
      requires forall u | u in old(users) :: u.username != user.username && u != user
      requires forall u | u in old(users) :: u.spaces == old(u.spaces) && u.bookings == old(u.bookings)
      requires forall s | s in spaces :: s.bookings == old(s.bookings)
      requires user.spaces == [] && user.bookings == []
      ensures Valid()
    {
      forall s | s in spaces
        ensures exists u :: u in users && s in u.spaces
      {
        var u :| u in old(users) && s in old(u.spaces);
        assert u in users && s in u.spaces;
      }
    }

    /** add_space: an empty name, then a name any registered space already
        has, are refused; otherwise the same new space is appended to the
        registry and to the user's own spaces. */
    method AddSpace(user: User, name: string, isPrivate: bool) returns (r: Outcome)
      modifies this, user
      ensures users == old(users) && user.bookings == old(user.bookings)
      ensures name == [] ==> r == Fail(InvalidSpaceName)
      ensures name != [] && (exists s | s in old(spaces) :: s.name == name) ==> r == Fail(SpaceAlreadyExists)
      ensures name != [] && (forall s | s in old(spaces) :: s.name != name) ==> r == Done
      ensures r.Fail? ==> spaces == old(spaces) && user.spaces == old(user.spaces)
      ensures r == Done ==>
        |spaces| == |old(spaces)| + 1 && spaces[..|old(spaces)|] == old(spaces)
        && fresh(spaces[|old(spaces)|]) && user.spaces == old(user.spaces) + [spaces[|old(spaces)|]]
        && spaces[|old(spaces)|].name == name && spaces[|old(spaces)|].isPrivate == isPrivate
        && spaces[|old(spaces)|].bookings == []
      ensures old(Valid()) && user in old(users) ==> Valid()
    {
      if name == [] {
        return Fail(InvalidSpaceName);
      }
      if FindSpace(name).Some? {
        return Fail(SpaceAlreadyExists);
      }
      ghost var wasValid := Valid() && user in users;
      var space := new Space(name, isPrivate);
      spaces := spaces + [space];
      user.spaces := user.spaces + [space];
      r := Done;
      if wasValid {
        AddedToBoth(user, space);
      }
    }

    /** The invariants after a new space, with a name no registered space
        has and no bookings, has joined both the user's list and the
        registry. */
    twostate lemma AddedToBoth(user: User, new space: Space)
      requires old(Valid()) && user in old(users)
      requires users == old(users) && space.bookings == []
      requires forall u | u in users :: space !in old(u.spaces)
      requires forall u | u in users && u != user :: u.spaces == old(u.spaces)
      requires forall u | u in users :: u.bookings == old(u.bookings)
      requires forall s | s in old(spaces) :: s.bookings == old(s.bookings)
      requires forall s | s in old(spaces) :: s.name != space.name
      requires user.spaces == old(user.spaces) + [space]
      requires spaces == old(spaces) + [space]
      ensures Valid()
    {
      forall s | s in spaces
        ensures exists u :: u in users && s in u.spaces
      {
        if s == space {
          assert user in users && s in user.spaces;
        } else {
          var u :| u in old(users) && s in old(u.spaces);
          assert s in u.spaces;
        }
      }
      forall u | u in users
        ensures Distinct(u.spaces)
      {
        if u == user {
          assert space !in old(user.spaces);
        }
      }
    }

    /** remove_space: the space is searched among the user's own spaces
        only; a space with bookings is kept; otherwise it leaves the user's
        list and then the registry, whose `list.remove` raises if it is not
        there. */
    method RemoveSpace(user: User, spaceName: string) returns (r: Outcome)
      modifies this, user
      ensures users == old(users) && user.bookings == old(user.bookings)
      ensures old(OwnedSpace(user, spaceName)).None? ==>
        r == Fail(SpaceNotFound) && spaces == old(spaces) && user.spaces == old(user.spaces)
      ensures old(OwnedSpace(user, spaceName)).Some? && old(OwnedSpace(user, spaceName)).value.bookings != [] ==>
        r == Fail(SpaceHasBookings) && spaces == old(spaces) && user.spaces == old(user.spaces)
      ensures old(OwnedSpace(user, spaceName)).Some? && old(OwnedSpace(user, spaceName)).value.bookings == [] ==>
        user.spaces == Remove(old(user.spaces), old(OwnedSpace(user, spaceName)).value).value
      ensures old(OwnedSpace(user, spaceName)).Some? && old(OwnedSpace(user, spaceName)).value.bookings == [] ==>
        if old(OwnedSpace(user, spaceName)).value in old(spaces)
        then r == Done && spaces == Remove(old(spaces), old(OwnedSpace(user, spaceName)).value).value
        else r == Fail(NotInList) && spaces == old(spaces)
      ensures old(Valid()) && user in old(users) ==> Valid() && r != Fail(NotInList)
      ensures old(Valid()) && user in old(users) && r == Done ==>
        (forall s | s in spaces :: s.name != spaceName)
        && (forall s | s in old(spaces) && s.name != spaceName :: s in spaces)
        && (forall s | s in user.spaces :: s.name != spaceName)
    {
      var found := OwnedSpace(user, spaceName);
      if found.None? {
        return Fail(SpaceNotFound);
      }
      var target := found.value;
      if target.bookings != [] {
        return Fail(SpaceHasBookings);
      }
      ghost var wasValid := Valid() && user in users;
      assert wasValid ==> target in spaces;
      user.spaces := Remove(user.spaces, target).value;
      var fromRegistry := Remove(spaces, target);
      if fromRegistry.None? {
        return Fail(NotInList);
      }
      spaces := fromRegistry.value;
      r := Done;
      if wasValid {
        assert RemovedFromBoth(user, spaceName);
        RemovalKeepsNames(user, spaceName);
        RemovalKeepsOwnership(user, spaceName);
        RemovalKeepsBookings(user, spaceName);
      }
    }

    /** Spaces with distinct names are distinct objects. */
    lemma DistinctNamesAreDistinct(ss: seq<Space>)
      requires forall i, j | 0 <= i < j < |ss| :: ss[i].name != ss[j].name
      ensures Distinct(ss)
    {
    }

    /** Removing a space from a list with unique names leaves the names
        unique and drops the only space with the removed one's name. */
    lemma RemoveKeepsNamesUnique(ss: seq<Space>, target: Space)
      requires target in ss
      requires forall i, j | 0 <= i < j < |ss| :: ss[i].name != ss[j].name
      ensures Remove(ss, target).Some?
      ensures var r := Remove(ss, target).value;
        (forall i, j | 0 <= i < j < |r| :: r[i].name != r[j].name)
        && (forall s | s in r :: s.name != target.name)
    {
    }

    // In the two-state members below, `spaceName` is marked `new`. For a
    // string this changes nothing, since a string is a value that exists in
    // both states. Without the mark, calling these lemmas with more than one
    // plain parameter makes the prover stop with an internal error ("named
    // expression already defined").

    /** What remove_space has done once it succeeds: the user's space
        called `spaceName`, which has no bookings, has left the user's list
        and the registry, and nothing else has changed. */
    twostate predicate RemovedFromBoth(user: User, new spaceName: string)
      reads this, user, users, spaces
    {
      && old(OwnedSpace(user, spaceName)).Some?
      && old(OwnedSpace(user, spaceName).value.bookings) == []
      && users == old(users)
      && (forall u | u in users && u != user :: u.spaces == old(u.spaces))
      && (forall u | u in users :: u.bookings == old(u.bookings))
      && (forall s | s in spaces && s in old(spaces) :: s.bookings == old(s.bookings))
      && Remove(old(user.spaces), old(OwnedSpace(user, spaceName)).value) == Some(user.spaces)
      && Remove(old(spaces), old(OwnedSpace(user, spaceName)).value) == Some(spaces)
    }

    /** After a removal no space with the removed name is left, and the
        names stay unique. */
    twostate lemma RemovalKeepsNames(user: User, new spaceName: string)
      requires old(Valid()) && user in old(users) && RemovedFromBoth(user, spaceName)
      ensures NamesUnique()
      ensures forall s | s in spaces :: s.name != spaceName
      ensures forall s | s in old(spaces) && s.name != spaceName :: s in spaces
      ensures forall s | s in user.spaces :: s.name != spaceName
    {
      var target := old(OwnedSpace(user, spaceName)).value;
      assert target in old(spaces);
      RemoveKeepsNamesUnique(old(spaces), target);
      DistinctNamesAreDistinct(old(spaces));
      RemoveDistinct(old(spaces), target);
      RemoveDistinct(old(user.spaces), target);
    }

    /** After a removal every registered space still has exactly one owner. */
    twostate lemma RemovalKeepsOwnership(user: User, new spaceName: string)
      requires old(Valid()) && user in old(users) && RemovedFromBoth(user, spaceName)
      ensures OwnershipConsistent()
    {
      var target := old(OwnedSpace(user, spaceName)).value;
      assert target in old(spaces);
      RemoveDistinct(old(user.spaces), target);
      DistinctNamesAreDistinct(old(spaces));
      RemoveDistinct(old(spaces), target);
      forall s | s in spaces
        ensures exists u :: u in users && s in u.spaces
      {
        var u :| u in old(users) && s in old(u.spaces);
        assert s in u.spaces;
      }
      forall u, s | u in users && s in u.spaces
        ensures s in spaces
      {
        if u != user {
          assert s in old(spaces);
          if s == target {
            assert target in old(user.spaces);
          }
        }
      }
    }

    /** After a removal every booking still sits in its user's and its
        space's lists. */
    twostate lemma RemovalKeepsBookings(user: User, new spaceName: string)
      requires old(Valid()) && user in old(users) && RemovedFromBoth(user, spaceName)
      ensures BookingsConsistent()
    {
      RemovalKeepsSpaceSide(user, spaceName);
      RemovalKeepsUserSide(user, spaceName);
    }

    /** The bookings of the spaces left are those they had, and still point
        at their users. */
    twostate lemma RemovalKeepsSpaceSide(user: User, new spaceName: string)
      requires old(Valid()) && user in old(users) && RemovedFromBoth(user, spaceName)
      ensures forall s, b | s in spaces && b in s.bookings ::
        b.space == s && b.user in users && b in b.user.bookings
        && (s.isPrivate ==> s in b.user.spaces)
      ensures forall s | s in spaces ::
        forall i, j | 0 <= i < j < |s.bookings| :: s.bookings[i].date != s.bookings[j].date
    {
      var target := old(OwnedSpace(user, spaceName)).value;
      assert target in old(spaces);
      RemoveDistinct(old(user.spaces), target);
      DistinctNamesAreDistinct(old(spaces));
      RemoveDistinct(old(spaces), target);
      forall s, b | s in spaces && b in s.bookings
        ensures s in old(spaces) && s != target && b in old(s.bookings)
      {
      }
    }

    /** Every booking of a user still points at a registered space: the
        removed space had none. */
    twostate lemma RemovalKeepsUserSide(user: User, new spaceName: string)
      requires old(Valid()) && user in old(users) && RemovedFromBoth(user, spaceName)
      ensures forall u, b | u in users && b in u.bookings ::
        b.user == u && b.space in spaces && b in b.space.bookings
    {
      var target := old(OwnedSpace(user, spaceName)).value;
      assert target in old(spaces);
      DistinctNamesAreDistinct(old(spaces));
      RemoveDistinct(old(spaces), target);
      forall u, b | u in users && b in u.bookings
        ensures b.space in old(spaces) && b.space != target
      {
      }
    }

    /** book_space: the date checks come first, then the space is looked up
        in the registry, then privacy, then a booking with the same date
        string; on success one new booking is appended to the space's and to
        the user's bookings. */
    method BookSpace(user: User, spaceName: string, date: string, now: DateTime) returns (r: Outcome)
      requires ValidDateTime(now)
      modifies user, spaces
      ensures user.spaces == old(user.spaces)
      ensures CheckDate(date, now).Err? ==> r == Fail(CheckDate(date, now).error)
      ensures CheckDate(date, now).Ok? && FindSpace(spaceName).None? ==> r == Fail(SpaceNotFound)
      ensures CheckDate(date, now).Ok? && FindSpace(spaceName).Some? ==>
        var target := FindSpace(spaceName).value;
        (target.isPrivate && target !in old(user.spaces) ==> r == Fail(PermissionDenied))
        && ((!target.isPrivate || target in old(user.spaces)) && (exists b | b in old(target.bookings) :: b.date == date)
            ==> r == Fail(DuplicateBooking))
        && ((!target.isPrivate || target in old(user.spaces)) && (forall b | b in old(target.bookings) :: b.date != date)
            ==> r == Done)
      ensures r.Fail? ==> user.bookings == old(user.bookings) && forall s | s in spaces :: s.bookings == old(s.bookings)
      ensures r == Done ==>
        FindSpace(spaceName).Some? &&
        var target := FindSpace(spaceName).value;
        |user.bookings| == |old(user.bookings)| + 1 && user.bookings[..|old(user.bookings)|] == old(user.bookings)
        && var b := user.bookings[|old(user.bookings)|];
        fresh(b) && b.user == user && b.space == target && b.date == date
        && target.bookings == old(target.bookings) + [b]
        && forall s | s in spaces && s != target :: s.bookings == old(s.bookings)
      ensures old(Valid()) && user in users ==> Valid()
    {
      var checked := CheckDate(date, now);
      if checked.Err? {
        return Fail(checked.error);
      }
      var found := FindSpace(spaceName);
      if found.None? {
        return Fail(SpaceNotFound);
      }
      var space := found.value;
      if space.isPrivate && space !in user.spaces {
        return Fail(PermissionDenied);
      }
      if exists b | b in space.bookings :: b.date == date {
        return Fail(DuplicateBooking);
      }
      ghost var wasValid := Valid() && user in users;
      var booking := new Booking(user, space, date);
      space.bookings := space.bookings + [booking];
      user.bookings := user.bookings + [booking];
      r := Done;
      if wasValid {
        BookedOnBoth(user, spaceName, booking);
      }
    }

    /** The invariants after a new booking, allowed on its space and with a
        date string no booking there has, has joined the space's and the
        user's bookings. */
    twostate lemma BookedOnBoth(user: User, new spaceName: string, new booking: Booking)
      requires old(Valid()) && user in old(users) && FindSpace(spaceName).Some?
      requires users == old(users) && spaces == old(spaces)
      requires booking.user == user && booking.space == FindSpace(spaceName).value
      requires booking.space.isPrivate ==> booking.space in old(user.spaces)
      requires forall b | b in old(FindSpace(spaceName).value.bookings) :: b.date != booking.date
      requires forall u | u in users :: u.spaces == old(u.spaces)
      requires forall u | u in users && u != user :: u.bookings == old(u.bookings)
      requires forall s | s in spaces && s != booking.space :: s.bookings == old(s.bookings)
      requires user.bookings == old(user.bookings) + [booking]
      requires booking.space.bookings == old(FindSpace(spaceName).value.bookings) + [booking]
      ensures Valid()
    {
      var space := booking.space;
      forall s | s in spaces
        ensures forall i, j | 0 <= i < j < |s.bookings| :: s.bookings[i].date != s.bookings[j].date
      {
        if s == space {
          forall i, j | 0 <= i < j < |s.bookings|
            ensures s.bookings[i].date != s.bookings[j].date
          {
            if j == |s.bookings| - 1 {
              assert s.bookings[i] in old(space.bookings);
            }
          }
        }
      }
    }
  }
}
