/** The three entities the manager keeps: a user with the spaces it owns
    and the bookings it made, a space with the bookings made on it, and a
    booking linking a user, a space and a date string. Names, the privacy
    flag and every field of a booking are fixed at construction; only the
    lists grow and shrink. */
module Models {

  class User {
    const username: string
    var spaces: seq<Space>
    var bookings: seq<Booking>

    constructor (username: string)
      ensures this.username == username && spaces == [] && bookings == []
    {
      this.username := username;
      spaces := [];
      bookings := [];
    }
  }

  class Space {
    const name: string
    const isPrivate: bool
    var bookings: seq<Booking>

    constructor (name: string, isPrivate: bool)
      ensures this.name == name && this.isPrivate == isPrivate && bookings == []
    {
      this.name := name;
      this.isPrivate := isPrivate;
      bookings := [];
    }
  }

  class Booking {
    const user: User
    const space: Space
    const date: string

    constructor (user: User, space: Space, date: string)
      ensures this.user == user && this.space == space && this.date == date
    {
      this.user := user;
      this.space := space;
      this.date := date;
    }
  }
}
