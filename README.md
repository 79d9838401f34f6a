# Space manager: a verified model

This project models the in-memory core of a small Python program for booking shared spaces (rooms, studios). A `SpaceManager` keeps two things:

- a list of users;
- a global registry of spaces.

Each user owns the spaces they created. Each booking links one user, one space and a date string written `DD-MM-YYYY`.

The manager has these operations:

- register a user;
- find a user or a space by name;
- add a space;
- remove a space;
- book a space for a day;
- list a user's bookings: a header line, then one line per booking.

Each operation refuses bad requests with a distinct kind of error, checked in a fixed order.

The model follows the code of `managers/space_manager.py`:

- `Models` (models.dfy): `User`, `Space` and `Booking` are classes, because the manager appends to their lists in place. Names, the privacy flag and a booking's user, space and date never change, so they are `const` fields.
- `Managers.SpaceManager` (space_manager.dfy): a class with the fields `users` and `spaces`. Its methods modify the manager and the user and space objects. Each raise site becomes one constructor of `Error`. A method returns `Fail(e)` or `Err(e)` where the program raises.
- `Managers.SpaceManager.Valid`: the invariant of the registry.
  - User names are unique.
  - Space names are unique across all users.
  - Every registered space has exactly one registered owner, and every owned space is registered.
  - Every booking sits in the lists of its own user and its own space.
  - The date strings booked on one space are distinct.
  - A private space is booked only by its owner.

  Every state-changing method keeps `Valid` whenever the user it is given is registered.
- `Lists` (lists.dfy): the two list idioms the code relies on.
  - `FirstIndex` is `next((x for x in s if p(x)), None)`.
  - `Remove` is `list.remove`, with `None` for its `ValueError`.
- `Dates` (dates.dfy): `datetime.strptime(date, "%d-%m-%Y")`, including its lenient forms.
  - Days may be written `1`, `01` or ` 1`; months `1` or `01`; the year takes exactly four digits.
  - The day must exist in the calendar.
  - A booking day is "in the past" when its midnight is earlier than the current moment. The current moment is a parameter.
- `Listings` (listing.dfy): the lines that `view_user_bookings` prints and `export_user_bookings` writes.
- `Scenarios` (scenarios.dfy): short sessions started from an empty manager, with the outcome each call must have.

Points of the code's behaviour that the model keeps as they are:

- `create_user` refuses only the empty name (managers/space_manager.py:36). A name made only of whitespace is accepted. The menus strip what the user types before they call it (interfaces/general_interface.py:18-21), so through them a name made only of whitespace becomes empty, and the menu refuses it without calling `create_user`.
- `remove_space` removes the space from the user's list first, then calls `list.remove` on the global registry. If the space were missing from the registry, that call would raise `ValueError` after the user's list had already changed. The model keeps this path (`NotInList`) and proves that it cannot occur while `Valid` holds for a registered user.
- The duplicate-booking check compares raw date strings. `1-1-2099` and `01-01-2099` name the same day but are different strings, so one space can be booked twice for that day. `Dates.OneDigitSpelling` shows that both spellings parse to the same day. `Managers.SpaceManager.BookSpace` states that only an equal string counts as a duplicate. `Dates.SameDayIffSameString` shows that for ten-character `DD-MM-YYYY` spellings the string check and the day check agree.

## Model

| member | source | states |
|---|---|---|
| Lists.FirstIndex | managers/space_manager.py:43 | The index of the first element that satisfies the predicate, with none before it; None exactly when no element does |
| Lists.Remove | managers/space_manager.py:67-68 | `list.remove(x)` fails exactly when `x` is absent; otherwise it drops the first occurrence and nothing else |
| Lists.RemoveOneOccurrence | managers/space_manager.py:67-68 | Removing takes exactly one copy of the element out of the list's multiset |
| Lists.RemoveDistinct | managers/space_manager.py:67-68 | Removing from a duplicate-free list leaves it duplicate-free, with exactly the removed element gone |
| Dates.ParseDate | managers/space_manager.py:79 | A string that parses under `%d-%m-%Y` names a day that exists, and has between 8 and 10 characters |
| Dates.ParseFormatted | managers/space_manager.py:79 | Every valid day, written `DD-MM-YYYY`, parses back to that same day |
| Dates.TenCharacterDateIsFormatted | managers/space_manager.py:79 | A ten-character date string without spaces that parses is exactly the `DD-MM-YYYY` spelling of its day |
| Dates.SameDayIffSameString | managers/space_manager.py:90 | For `DD-MM-YYYY` spellings, naming the same day and being the same string are equivalent |
| Dates.OneDigitSpelling | managers/space_manager.py:79 | `1-1-2099` and `01-01-2099` are different strings that parse to the same day |
| Dates.PastMeansEarlierOrToday | managers/space_manager.py:80 | A day's midnight is before now exactly when the day is earlier than today, or it is today and midnight has passed |
| Managers.CheckDate | managers/space_manager.py:76-84 | The date checks, each an if-and-only-if: empty refused first, then a date that does not parse, then a day whose midnight is past; the date is accepted exactly when it is non-empty, parses and its midnight is not past; an accepted date parses to a day that is not earlier than today |
| Managers.TodayRefusedUnlessMidnight | managers/space_manager.py:80-81 | Today's date is accepted exactly when now is midnight; any later day is accepted |
| Managers.OwnedSpace | managers/space_manager.py:62 | The space found by remove_space is the first of the user's own spaces with that name; None exactly when the user owns none with that name |
| Managers.SpaceManager.constructor | managers/space_manager.py:29-31 | A new manager has no users and no spaces, and satisfies the invariant |
| Managers.SpaceManager.FindUser | managers/space_manager.py:42-43 | The first registered user with exactly that name; None exactly when no user has it |
| Managers.SpaceManager.FindSpace | managers/space_manager.py:45-46 | The first registered space with exactly that name; None exactly when no space has it |
| Managers.SpaceManager.CreateUser | managers/space_manager.py:33-40 | A taken name is refused before an empty one, and neither changes the users; otherwise exactly one fresh user with that name and no spaces or bookings is appended; spaces are unchanged; the invariant is kept |
| Managers.SpaceManager.UserAdded | managers/space_manager.py:38-39 | Registering a user with a new name and no spaces keeps the invariant |
| Managers.SpaceManager.AddSpace | managers/space_manager.py:48-57 | An empty name is refused, then a name used by any registered space; errors change nothing; otherwise one fresh space with that name and privacy flag is appended to both the registry and the user's spaces; the invariant is kept for a registered user |
| Managers.SpaceManager.AddedToBoth | managers/space_manager.py:55-57 | A new space with a new name, appended to both lists, keeps every space owned exactly once and the names unique |
| Managers.SpaceManager.RemoveSpace | managers/space_manager.py:59-71 | Only the user's own spaces are searched; a miss, then a space with bookings, are refused and change nothing; otherwise the space leaves the user's list and then the registry, and `NotInList` (the registry's `list.remove` raising) happens only if the space was not registered; for a registered user the invariant is kept, `NotInList` cannot happen, and no space with that name is left while the other spaces stay |
| Managers.SpaceManager.RemovalKeepsNames | managers/space_manager.py:67-68 | After a removal, names stay unique, no space with the removed name remains, and every other space stays registered |
| Managers.SpaceManager.RemovalKeepsOwnership | managers/space_manager.py:67-68 | After a removal, every owned space is registered and every registered space has exactly one owner |
| Managers.SpaceManager.RemovalKeepsBookings | managers/space_manager.py:64-68 | After removing a space that has no bookings, every booking still sits in its user's and its space's lists |
| Managers.SpaceManager.RemovalKeepsSpaceSide | managers/space_manager.py:64-68 | After the removal, the bookings of every remaining space still point at registered users who hold them, and their date strings stay distinct |
| Managers.SpaceManager.RemovalKeepsUserSide | managers/space_manager.py:64-68 | After the removal, every user's booking still points at a registered space that holds it |
| Managers.SpaceManager.BookSpace | managers/space_manager.py:73-97 | The date checks come before the lookup in the global registry, then privacy (owners may book their private spaces), then an equal date string already booked; any error changes no booking; on success the same fresh booking is appended to the user's and the space's bookings and every other space is unchanged; the invariant is kept for a registered user |
| Managers.SpaceManager.BookedOnBoth | managers/space_manager.py:92-94 | One new booking for a new date string, appended to both lists, keeps every booking linked both ways and the dates of a space distinct |
| Listings.BookingLines | managers/space_manager.py:103-104 | One line per booking, in booking order, each `Spazio: <space>, Data: <date>` |
| Listings.Listing | managers/space_manager.py:102-104 | The header `Prenotazioni per l'utente '<username>':`, then one line per booking in order: exactly one line more than the user has bookings |
| Listings.SplitJoin | managers/space_manager.py:132-134 | Lines written one after another, each followed by a newline, are read back as the same lines |
| Listings.ExportLines | managers/space_manager.py:130-134 | The exported text holds exactly the listing's lines, 1 + the number of bookings, when no name or date contains a newline |
| Scenarios.DateRefusals | managers/space_manager.py:76-84 | At a fixed moment on 18 October 2026: an empty date, a `YYYY-MM-DD` date, yesterday and today are all refused, each with its own error |
| Scenarios.FutureAccepted | managers/space_manager.py:79-80 | A future day is accepted in both its one-digit and its two-digit spelling |
| Scenarios.RegisterTwice | managers/space_manager.py:33-43 | A second registration of a name is refused, and so is an empty name; the first user is then found by name |
| Scenarios.DateBeforeSpace | managers/space_manager.py:76-97 | A past date is refused even for a space that does not exist; a valid date for it gives SpaceNotFound |
| Scenarios.SharedNames | managers/space_manager.py:51-54 | One user cannot add a space named like another user's space |
| Scenarios.RemoveFree | managers/space_manager.py:59-71 | Another user cannot remove a space; the owner can, and the space is then gone from the registry |

## Left out

- `save_data` and `load_data`: pickle serialisation and file access. The model has no persistence.
- `main` and its command-line arguments.
- The file handling of `export_user_bookings` and every `print`. Only the content of the lines is modelled. The messages printed on success are not.
- `datetime.now()`: the current moment is a parameter of `BookSpace` and `CheckDate`.
- The `isinstance(user, User)` checks that raise `TypeError`: the Dafny types make them impossible to fail.
- The Italian message texts: only the kind of each error is modelled.
- Dates.ParseDate: digits outside ASCII, which Python's `strptime` also accepts, are not modelled.
- The truthiness tests (`if self.find_user(...)`, `if space:`, `any(space.bookings)`) are modelled as "found" and "non-empty". This assumes `User`, `Space` and `Booking` objects are always truthy. Their classes are not part of this model; they are rebuilt from how the manager uses them.
- `UserNotFoundException` is declared but never raised, so it has no error kind.
- The menu interfaces (`interfaces/user_interface.py`, `interfaces/general_interface.py`): they only read input, call the manager and print.
- Managers.SpaceManager.AddSpace: the invariant `Valid` is promised only when the user passed in is registered. The code accepts any `User` object, and an unregistered one can break the ownership and booking links.
- Managers.SpaceManager.RemoveSpace: the invariant `Valid` is promised only when the user passed in is registered. The code accepts any `User` object, and an unregistered one can break the ownership and booking links.
- Managers.SpaceManager.BookSpace: the invariant `Valid` is promised only when the user passed in is registered. The code accepts any `User` object, and an unregistered one can break the ownership and booking links.
- Sessions that book a space several times (a duplicate refused, two spellings of one day both accepted, a private space booked by its owner) are not written as scenarios. They follow from the `BookSpace` contract, but each is too costly for the verifier as a single session.
