/** The createBooking mutation: a fixed sequence of guards, then the charge,
    then the writes to the three collections. */
module BookingResolvers {
  import opened Common
  import opened Calendar
  import opened BookingsIndex
  import opened Store
  import opened Utils

  /** The mutation's input; check-in and check-out are day ordinals of the
      date strings the client sends. */
  datatype BookingInput = BookingInput(listingId: string, source: string, checkIn: int, checkOut: int)

  /** A charge request to the payment provider: amount, payment source and
      the host's connected account. */
  datatype Charge = Charge(amount: int, source: string, walletId: string)

  const ErrorPrefix := "Unable to create booking: "
  const NotLoggedIn := "You must be logged in to create a booking."
  const NoListing := "Unable to query listing"
  const OwnListing := "You cannot book your own listing."
  const BadRange := "Checkin date can't be after checkout date"
  const NoWallet := "the host either can't be found or is not connected with stripe"

  /** The amount to charge, computed as the source does on millisecond
      timestamps: the nightly price times the whole days between check-in and
      check-out, plus one. */
  function Price(nightly: int, checkIn: int, checkOut: int): (amount: int)
    ensures amount == nightly * (checkOut - checkIn + 1)
    ensures checkIn <= checkOut ==> amount == nightly * Span(checkIn, checkOut)
  {
    nightly * ((checkOut * MillisPerDay - checkIn * MillisPerDay) / MillisPerDay + 1)
  }

  /** Price 100 from 2024-01-01 to 2024-01-03 is 300; the same day alone is
      100; price 50 from 2024-03-01 to 2024-03-02 is 100. */
  lemma PriceExamples()
    ensures Price(100, DaysFromCivil(Date(2024, 0, 1)), DaysFromCivil(Date(2024, 0, 3))) == 300
    ensures Price(100, DaysFromCivil(Date(2024, 0, 1)), DaysFromCivil(Date(2024, 0, 1))) == 100
    ensures Price(50, DaysFromCivil(Date(2024, 2, 1)), DaysFromCivil(Date(2024, 2, 2))) == 100
  {
  }

  /** What every guard of createBooking has established: the viewer, the
      listing, its host, the listing's new bookings index and the price. */
  datatype Approved = Approved(viewer: User, listing: ListingDoc, host: User, index: Index, price: int)

  /** The guards of createBooking in the order the source runs them; the
      first that fails gives the error message. */
  function Guards(users: map<string, User>, listings: map<string, ListingDoc>,
                  cookie: Option<string>, header: Option<string>, input: BookingInput): (r: Result<Approved>)
    ensures r.Err? ==> r.error in {NotLoggedIn, NoListing, OwnListing, BadRange, OverlapError, NoWallet}
    ensures r.Ok? ==>
      && Authorize(users, cookie, header) == Some(r.value.viewer)
      && input.listingId in listings && r.value.listing == listings[input.listingId]
      && Resolved(r.value.listing.bookingsIndex, input.checkIn, input.checkOut) == Ok(r.value.index)
    ensures Authorize(users, cookie, header).None? ==> r == Err(NotLoggedIn)
    ensures Authorize(users, cookie, header).Some? && input.listingId !in listings ==> r == Err(NoListing)
    ensures Authorize(users, cookie, header).Some? && input.listingId in listings ==>
      var listing := listings[input.listingId];
      && (listing.host == Authorize(users, cookie, header).value.id ==> r == Err(OwnListing))
      && (listing.host != Authorize(users, cookie, header).value.id ==>
            && (input.checkOut < input.checkIn ==> r == Err(BadRange))
            && (input.checkIn <= input.checkOut && Resolved(listing.bookingsIndex, input.checkIn, input.checkOut).Err? ==>
                  r == Err(OverlapError))
            && ((&& input.checkIn <= input.checkOut
                 && Resolved(listing.bookingsIndex, input.checkIn, input.checkOut).Ok?
                 && (listing.host !in users || !Truthy(users[listing.host].walletId))) ==> r == Err(NoWallet)))
  {
    var viewer := Authorize(users, cookie, header);
    if viewer.None? then Err(NotLoggedIn)
    else if input.listingId !in listings then Err(NoListing)
    else
      var listing := listings[input.listingId];
      if listing.host == viewer.value.id then Err(OwnListing)
      else if input.checkOut < input.checkIn then Err(BadRange)
      else
        var index := Resolved(listing.bookingsIndex, input.checkIn, input.checkOut);
        if index.Err? then Err(index.error)
        else
          var price := Price(listing.price, input.checkIn, input.checkOut);
          if listing.host !in users || !Truthy(users[listing.host].walletId) then Err(NoWallet)
          else Ok(Approved(viewer.value, listing, users[listing.host], index.value, price))
  }

  /** The guards' verdict: they pass exactly when the viewer is logged in,
      the listing exists, the viewer is not its host, check-out is not before
      check-in, no day of the range is booked yet and the host has a wallet.
      A passing verdict names a tenant other than the host, a new index that
      books every day of the range, and the price of the whole stay. */
  lemma GuardsVerdict(users: map<string, User>, listings: map<string, ListingDoc>,
                      cookie: Option<string>, header: Option<string>, input: BookingInput)
    requires forall id :: id in users ==> users[id].id == id
    ensures var g := Guards(users, listings, cookie, header, input);
      g.Ok? <==>
        && Authorize(users, cookie, header).Some?
        && input.listingId in listings
        && listings[input.listingId].host != Authorize(users, cookie, header).value.id
        && input.checkIn <= input.checkOut
        && (forall day :: input.checkIn <= day <= input.checkOut ==>
              !IsBooked(listings[input.listingId].bookingsIndex, CivilFromDays(day)))
        && listings[input.listingId].host in users
        && Truthy(users[listings[input.listingId].host].walletId)
    ensures var g := Guards(users, listings, cookie, header, input);
      g.Ok? ==>
        && g.value.viewer.id != g.value.host.id
        && g.value.listing == listings[input.listingId]
        && g.value.price == g.value.listing.price * Span(input.checkIn, input.checkOut)
        && (forall day :: input.checkIn <= day <= input.checkOut ==> IsBooked(g.value.index, CivilFromDays(day)))
  {
    if Authorize(users, cookie, header).Some? && input.listingId in listings {
      var listing := listings[input.listingId];
      ResolvedOkIff(listing.bookingsIndex, input.checkIn, input.checkOut);
      var g := Guards(users, listings, cookie, header, input);
      if g.Ok? {
        forall day | input.checkIn <= day <= input.checkOut
          ensures IsBooked(g.value.index, CivilFromDays(day))
        {
          ResolvedBooksRange(listing.bookingsIndex, input.checkIn, input.checkOut, day);
        }
      }
    }
  }

  /** A viewer booking their own listing is turned away before the dates are
      even compared, whatever the dates and the listing's bookings. */
  lemma OwnListingRejectedFirst(users: map<string, User>, listings: map<string, ListingDoc>,
                                cookie: Option<string>, header: Option<string>, input: BookingInput)
    requires Authorize(users, cookie, header).Some? && input.listingId in listings
    requires listings[input.listingId].host == Authorize(users, cookie, header).value.id
    ensures Guards(users, listings, cookie, header, input) == Err(OwnListing)
  {
  }

  /** A range that meets an already booked day is turned away with the
      overlap message, once the viewer, the listing and the dates have
      passed; the host's wallet is not looked at. */
  lemma BookedDayRejected(users: map<string, User>, listings: map<string, ListingDoc>,
                          cookie: Option<string>, header: Option<string>, input: BookingInput, day: int)
    requires Authorize(users, cookie, header).Some? && input.listingId in listings
    requires listings[input.listingId].host != Authorize(users, cookie, header).value.id
    requires input.checkIn <= day <= input.checkOut
    requires IsBooked(listings[input.listingId].bookingsIndex, CivilFromDays(day))
    ensures Guards(users, listings, cookie, header, input) == Err(OverlapError)
  {
    ResolvedOkIff(listings[input.listingId].bookingsIndex, input.checkIn, input.checkOut);
  }

  /** A free range on a listing whose host has no wallet is turned away with
      the wallet message: that guard runs last. */
  lemma WalletCheckedLast(users: map<string, User>, listings: map<string, ListingDoc>,
                          cookie: Option<string>, header: Option<string>, input: BookingInput)
    requires Authorize(users, cookie, header).Some? && input.listingId in listings
    requires listings[input.listingId].host != Authorize(users, cookie, header).value.id
    requires input.checkIn <= input.checkOut
    requires forall day :: input.checkIn <= day <= input.checkOut ==>
      !IsBooked(listings[input.listingId].bookingsIndex, CivilFromDays(day))
    requires listings[input.listingId].host !in users || !Truthy(users[listings[input.listingId].host].walletId)
    ensures Guards(users, listings, cookie, header, input) == Err(NoWallet)
  {
    ResolvedOkIff(listings[input.listingId].bookingsIndex, input.checkIn, input.checkOut);
  }

  /** Check-out before check-in is turned away before the bookings index is
      walked, so it never reports an overlap. */
  lemma BadRangeRejectedBeforeIndex(users: map<string, User>, listings: map<string, ListingDoc>,
                                    cookie: Option<string>, header: Option<string>, input: BookingInput)
    requires input.checkOut < input.checkIn
    ensures Guards(users, listings, cookie, header, input).Err?
    ensures Guards(users, listings, cookie, header, input).error
         in {NotLoggedIn, NoListing, OwnListing, BadRange}
  {
  }

  /** The guards of createBooking as the resolver runs them, walking the
      listing's bookings index; the verdict is the one `Guards` specifies,
      and an approval carries the stored documents it was drawn from. */
  method CheckGuards(users: map<string, User>, listings: map<string, ListingDoc>,
                     cookie: Option<string>, header: Option<string>, input: BookingInput)
    returns (g: Result<Approved>)
    ensures g == Guards(users, listings, cookie, header, input)
    ensures g.Ok? ==>
      && cookie.Some? && cookie.value in users && g.value.viewer == users[cookie.value]
      && input.listingId in listings && g.value.listing == listings[input.listingId]
      && g.value.listing.host in users && g.value.host == users[g.value.listing.host]
      && Truthy(g.value.host.walletId)
      && g.value.price == Price(g.value.listing.price, input.checkIn, input.checkOut)
  {
    var viewer := Authorize(users, cookie, header);
    if viewer.None? {
      return Err(NotLoggedIn);
    }
    if input.listingId !in listings {
      return Err(NoListing);
    }
    var listing := listings[input.listingId];
    if listing.host == viewer.value.id {
      return Err(OwnListing);
    }
    if input.checkOut < input.checkIn {
      return Err(BadRange);
    }
    var bookingsIndex, _ := ResolveBookingsIndex(listing.bookingsIndex, input.checkIn, input.checkOut);
    if bookingsIndex.Err? {
      return Err(bookingsIndex.error);
    }
    var price := Price(listing.price, input.checkIn, input.checkOut);
    if listing.host !in users || !Truthy(users[listing.host].walletId) {
      return Err(NoWallet);
    }
    g := Ok(Approved(viewer.value, listing, users[listing.host], bookingsIndex.value, price));
  }

  /** The host's document once the price has been added to their income. */
  function Credited(host: User, amount: int): User {
    host.(income := host.income + amount)
  }

  /** The tenant's document with the booking's id pushed onto their bookings. */
  function WithBooking(tenant: User, id: string): User {
    tenant.(bookings := tenant.bookings + [id])
  }

  /** The listing's document once the booking is recorded on it. */
  function ListingWithBooking(listing: ListingDoc, index: Index, id: string): ListingDoc {
    listing.(bookingsIndex := index, bookings := listing.bookings + [id])
  }

  /** What a paid booking does to the users: the host's income rises by
      exactly the price and nothing else of theirs changes, the tenant's
      bookings gain the booking's id and nothing else of theirs changes, and
      every other user is left as it was. */
  lemma BookingUserWrites(users: map<string, User>, a: Approved, id: string, other: string)
    requires a.viewer.id in users && users[a.viewer.id] == a.viewer
    requires a.host.id in users && users[a.host.id] == a.host && a.viewer.id != a.host.id
    ensures var after := users[a.host.id := Credited(a.host, a.price)][a.viewer.id := WithBooking(a.viewer, id)];
      && after.Keys == users.Keys
      && after[a.host.id].income == users[a.host.id].income + a.price
      && after[a.host.id].(income := users[a.host.id].income) == users[a.host.id]
      && after[a.viewer.id].bookings == users[a.viewer.id].bookings + [id]
      && after[a.viewer.id].(bookings := users[a.viewer.id].bookings) == users[a.viewer.id]
      && (other in users && other != a.host.id && other != a.viewer.id ==> after[other] == users[other])
  {
  }

  /** The writes of a paid booking: insert it, add the price to the host's
      income, push its id onto the tenant's and the listing's booking lists
      and store the listing's new bookings index. */
  method RecordBooking(db: Database, booking: BookingDoc, a: Approved)
    requires db.Valid()
    requires booking.id !in db.bookings
    requires a.viewer.id in db.users && db.users[a.viewer.id] == a.viewer
    requires a.host.id in db.users && db.users[a.host.id] == a.host && a.viewer.id != a.host.id
    requires a.listing.id in db.listings
    modifies db
    ensures db.Valid()
    ensures db.bookings == old(db.bookings)[booking.id := booking]
    ensures db.bookingOrder == old(db.bookingOrder) + [booking.id]
    ensures db.users == old(db.users)[a.host.id := Credited(a.host, a.price)]
                                     [a.viewer.id := WithBooking(a.viewer, booking.id)]
    ensures db.listings == old(db.listings)[a.listing.id := ListingWithBooking(a.listing, a.index, booking.id)]
    ensures db.listingOrder == old(db.listingOrder)
  {
    db.bookings := db.bookings[booking.id := booking];
    db.bookingOrder := db.bookingOrder + [booking.id];
    db.users := db.users[a.host.id := Credited(a.host, a.price)];
    db.users := db.users[a.viewer.id := WithBooking(a.viewer, booking.id)];
    db.listings := db.listings[a.listing.id := ListingWithBooking(a.listing, a.index, booking.id)];
  }

  /** createBooking. Every thrown error reaches the caller as "Unable to
      create booking: Error: <message>". Nothing is charged and nothing is
      written unless every guard passes; a failed charge writes nothing.
      Otherwise the booking is inserted under the fresh id, the host's income
      rises by the price, the tenant's and the listing's booking lists gain
      the id, and the listing's bookings index becomes the walked one.
      `stripeFailure` is the payment provider's error, if it refuses. */
  method CreateBooking(db: Database, cookie: Option<string>, header: Option<string>, input: BookingInput,
                       stripeFailure: Option<string>, newId: string)
    returns (r: Result<BookingDoc>, charge: Option<Charge>)
    requires db.Valid()
    requires newId !in db.bookings
    modifies db
    ensures db.Valid()
    ensures var g := Guards(old(db.users), old(db.listings), cookie, header, input);
      && (g.Err? ==> r == Err(Rethrow(ErrorPrefix, g.error)) && charge == None)
      && (g.Ok? ==> charge == Some(Charge(g.value.price, input.source, g.value.host.walletId.value)))
      && (g.Ok? && stripeFailure.Some? ==> r == Err(Rethrow(ErrorPrefix, stripeFailure.value)))
      && (g.Ok? && stripeFailure.None? ==>
            r == Ok(BookingDoc(newId, input.listingId, g.value.viewer.id, input.checkIn, input.checkOut)))
    ensures r.Err? ==>
      && db.users == old(db.users) && db.listings == old(db.listings) && db.bookings == old(db.bookings)
      && db.listingOrder == old(db.listingOrder) && db.bookingOrder == old(db.bookingOrder)
    ensures r.Ok? ==>
      var a := Guards(old(db.users), old(db.listings), cookie, header, input).value;
      && db.bookings == old(db.bookings)[newId := r.value]
      && db.bookingOrder == old(db.bookingOrder) + [newId]
      && db.users == old(db.users)[a.host.id := Credited(a.host, a.price)]
                                  [a.viewer.id := WithBooking(a.viewer, newId)]
      && db.listings == old(db.listings)[a.listing.id := ListingWithBooking(a.listing, a.index, newId)]
      && db.listingOrder == old(db.listingOrder)
  {
    charge := None;
    var g := CheckGuards(db.users, db.listings, cookie, header, input);
    if g.Err? {
      r := Err(Rethrow(ErrorPrefix, g.error));
      return;
    }
    var a := g.value;
    charge := Some(Charge(a.price, input.source, a.host.walletId.value));
    if stripeFailure.Some? {
      r := Err(Rethrow(ErrorPrefix, stripeFailure.value));
      return;
    }
    var booking := BookingDoc(newId, input.listingId, a.viewer.id, input.checkIn, input.checkOut);
    RecordBooking(db, booking, a);
    r := Ok(booking);
  }
}
