/** The booking listing of one user: the lines view_user_bookings prints and
    export_user_bookings writes, one per line, each ended by a newline. */
module Listings {
  import opened Lists
  import opened Models

  function Header(username: string): string {
    "Prenotazioni per l'utente '" + username + "':"
  }

  function BookingLine(b: Booking): string {
    "Spazio: " + b.space.name + ", Data: " + b.date
  }

  /** One line per booking, in the order of the bookings. */
  function BookingLines(bookings: seq<Booking>): (lines: seq<string>)
    ensures |lines| == |bookings|
    ensures forall i | 0 <= i < |bookings| :: lines[i] == BookingLine(bookings[i])
  {
    if bookings == [] then []
    else [BookingLine(bookings[0])] + BookingLines(bookings[1..])
  }

  /** The listing of a user: the header, then the user's bookings in the
      order they were made. */
  function Listing(user: User): (lines: seq<string>)
    reads user
    ensures |lines| == 1 + |user.bookings|
    ensures lines[0] == Header(user.username)
    ensures forall i | 0 <= i < |user.bookings| :: lines[i + 1] == BookingLine(user.bookings[i])
  {
    [Header(user.username)] + BookingLines(user.bookings)
  }

  /** Lines written one after another, each followed by a newline. */
  function Join(lines: seq<string>): string {
    if lines == [] then [] else lines[0] + "\n" + Join(lines[1..])
  }

  /** The file export_user_bookings writes (and the text
      view_user_bookings prints). */
  function ExportText(user: User): string
    reads user
  {
    Join(Listing(user))
  }

  /** A text cut at its newlines; a last line without a newline still
      counts. */
  function SplitLines(text: string): seq<string>
    decreases |text|
  {
    if text == [] then []
    else match FirstIndex(text, (c: char) => c == '\n')
      case None => [text]
      case Some(k) => [text[..k]] + SplitLines(text[k + 1..])
  }

  predicate NoNewline(s: string) {
    '\n' !in s
  }

  /** Cutting joined lines at their newlines gives the lines back, when no
      line holds a newline itself. */
  lemma {:induction false} SplitJoin(lines: seq<string>)
    requires forall i | 0 <= i < |lines| :: NoNewline(lines[i])
    ensures SplitLines(Join(lines)) == lines
  {
    if lines != [] {
      var first := lines[0];
      var text := Join(lines);
      assert text == first + "\n" + Join(lines[1..]);
      assert text[|first|] == '\n';
      assert forall j | 0 <= j < |first| :: text[j] == first[j];
      assert FirstIndex(text, (c: char) => c == '\n') == Some(|first|);
      assert text[..|first|] == first;
      assert text[|first| + 1..] == Join(lines[1..]);
      SplitJoin(lines[1..]);
    }
  }

  /** The exported file has exactly one line more than the user has
      bookings, header first, when no name or date holds a newline. */
  lemma ExportLines(user: User)
    requires NoNewline(user.username)
    requires forall i | 0 <= i < |user.bookings| ::
      NoNewline(user.bookings[i].space.name) && NoNewline(user.bookings[i].date)
    ensures SplitLines(ExportText(user)) == Listing(user)
    ensures |SplitLines(ExportText(user))| == 1 + |user.bookings|
  {
    var lines := Listing(user);
    forall i | 0 <= i < |lines|
      ensures NoNewline(lines[i])
    {
      if i == 0 {
        assert lines[0] == "Prenotazioni per l'utente '" + user.username + "':";
      } else {
        var b := user.bookings[i - 1];
        assert lines[i] == "Spazio: " + b.space.name + ", Data: " + b.date;
      }
    }
    SplitJoin(lines);
  }
}
