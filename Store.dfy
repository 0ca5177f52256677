/** The documents of the three MongoDB collections the resolvers read and
    write, and the database that holds them. Identifiers (the users' Google
    ids and the hex strings of ObjectIds) are strings; `===` on them is
    string equality. */
module Store {
  import opened Common
  import opened BookingsIndex

  /** A user document. `token` is the CSRF token of the last login (absent
      until the first one), `walletId` the connected Stripe account. */
  datatype User = User(
    id: string,
    token: Option<string>,
    name: string,
    avatar: string,
    contact: string,
    walletId: Option<string>,
    income: int,
    bookings: seq<string>,
    listings: seq<string>)

  /** The two listing types the schema's enum admits. */
  datatype ListingType = Apartment | House

  /** A listing document. `authorized` is never stored by the resolvers; it
      is set on the copy that the `listing` query returns to the listing's
      host. */
  datatype ListingDoc = ListingDoc(
    id: string,
    title: string,
    description: string,
    image: string,
    kind: ListingType,
    address: string,
    price: int,
    numOfGuests: int,
    country: string,
    admin: string,
    city: string,
    host: string,
    bookings: seq<string>,
    bookingsIndex: Index,
    authorized: bool)

  /** A booking document; check-in and check-out are day ordinals. */
  datatype BookingDoc = BookingDoc(id: string, listing: string, tenant: string, checkIn: int, checkOut: int)

  /** The ids of `s` in order, each at most once. */
  predicate Distinct(s: seq<string>) {
    forall i, j :: 0 <= i < j < |s| ==> s[i] != s[j]
  }

  /** The database: each collection keyed by `_id`, with the collection's
      natural (insertion) order kept for the queries that return documents
      in that order. */
  class Database {
    var users: map<string, User>
    var listings: map<string, ListingDoc>
    var listingOrder: seq<string>
    var bookings: map<string, BookingDoc>
    var bookingOrder: seq<string>

    /** Every document sits under its own id, and each natural order lists
        every id of its collection exactly once. */
    ghost predicate Valid()
      reads this
    {
      && (forall id :: id in users ==> users[id].id == id)
      && (forall id :: id in listings ==> listings[id].id == id)
      && (forall id :: id in bookings ==> bookings[id].id == id)
      && Distinct(listingOrder) && (forall id :: id in listingOrder <==> id in listings)
      && Distinct(bookingOrder) && (forall id :: id in bookingOrder <==> id in bookings)
    }

    /** An empty database. */
    constructor ()
      ensures Valid()
      ensures users == map[] && listings == map[] && bookings == map[]
      ensures listingOrder == [] && bookingOrder == []
    {
      users := map[];
      listings := map[];
      listingOrder := [];
      bookings := map[];
      bookingOrder := [];
    }

    /** The listings collection in natural order, as `find` returns it. */
    function ListingsInOrder(): (docs: seq<ListingDoc>)
      reads this
      requires Valid()
      ensures |docs| == |listingOrder|
      ensures forall i :: 0 <= i < |docs| ==> docs[i] == listings[listingOrder[i]]
    {
      seq(|listingOrder|, i requires 0 <= i < |listingOrder| && listingOrder[i] in listings reads this =>
        listings[listingOrder[i]])
    }

    /** The bookings collection in natural order. */
    function BookingsInOrder(): (docs: seq<BookingDoc>)
      reads this
      requires Valid()
      ensures |docs| == |bookingOrder|
      ensures forall i :: 0 <= i < |docs| ==> docs[i] == bookings[bookingOrder[i]]
    {
      seq(|bookingOrder|, i requires 0 <= i < |bookingOrder| && bookingOrder[i] in bookings reads this =>
        bookings[bookingOrder[i]])
    }
  }
}
