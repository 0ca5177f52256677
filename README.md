# homesweethome-server bookings core in Dafny

A model of the GraphQL resolvers of the homesweethome vacation-rental backend.

**Bookings**
- `BookingsIndex` models `resolveBookingsIndex`. It walks a check-in..check-out range one UTC day at a time. It marks each day in a listing's year → month → day calendar and fails when a day is already booked.
- `BookingResolvers` models `createBooking`:
  - the fixed guard sequence (session, listing, own listing, date order, overlap, host wallet);
  - the inclusive price;
  - the charge;
  - the four writes.

**Listings** (`ListingResolvers`)
- `hostListing` and its input checks;
- the `listing` query and its `authorized` mark;
- the `listings` query: location, filter, price sort, region line, skip and limit;
- the `Listing.host` and `Listing.bookings` field resolvers.

**Viewer** (`ViewerResolvers`)
- login through Google or through the session cookie;
- the guest login, logout and the cookie lifetime;
- the returned `Viewer` and `Viewer.hasWallet`.

**Shared helpers and calendar**
- `Utils` holds `authorize`, `parseAddress` and `geocode`.
- `Calendar` is UTC civil-calendar arithmetic on integer day ordinals. Dates are day ordinals: `Date.getTime() / 86400000` for a date string without a time. `CivilFromDays` gives what `getUTCFullYear`, `getUTCMonth` and `getUTCDate` read off such a `Date`.
- `JsStrings` holds the JavaScript string behaviour the resolvers rely on: `length` in UTF-16 units, `trim`, and `Number` versus `parseInt`.

**State and external services**
- The database is `Store.Database`, a class whose fields are the three collections (maps keyed by `_id`) and the natural order of listings and bookings. The mutations are methods that modify it.
- External services are parameters:
  - Google's answer to `Google.login`;
  - the Stripe charge's failure, if any;
  - the geocoder's response;
  - the fresh token from `crypto.randomBytes`;
  - the fresh `ObjectId`;
  - the `COOKIE_EXPIRY` lifetime.

**Behaviour worth knowing**
- **The copy of the bookings index is shallow.** `resolveBookingsIndex` copies only the top level (`{ ...bookingsIndex }`). So a walk that fails part-way has already written the days before the conflict into month maps the caller shares. `ResolveBookingsIndex` returns the caller's own index as `callerView`. `FailedWalkCallerView` states what that index books after a failure, and `ConflictWritesThroughSharedYear` shows a concrete case. `createBooking` then discards the listing object, so nothing is stored.
- **Cookie login does not touch the cookie.** `loginViaCookie` rotates the stored token but does not set the cookie again (`KeepCookie`).
- **Two cookie lifetimes.** The TypeScript source computes the lifetime with unary `+` at each Google login. The compiled module computes it once with `parseInt`. Both are modelled, and `CookieExpiryDiffers` shows an input where they part.

## Model

| member | source | states |
|---|---|---|
| BookingsIndex.IsBooked | src/graphql/resolvers/Booking/index.ts:27 | a date is booked when its year, month and day levels exist and the day is true; its meaning under marking is stated by MarkDayBooked |
| BookingsIndex.MarkDay | src/graphql/resolvers/Booking/index.ts:19-28 | creates the year and month levels when missing and sets the day; its contract is carried by MarkDayBooked and MarkDayFrame |
| BookingsIndex.MarkDayFrame | src/graphql/resolvers/Booking/index.ts:19-28 | marking a date adds at most its year and leaves every other year's months as they were |
| BookingsIndex.MarkDayBooked | src/graphql/resolvers/Booking/index.ts:19-28 | creating missing levels and setting the marker books that date, and every other date stays booked or free as before |
| BookingsIndex.Span | src/graphql/resolvers/Booking/index.ts:14 | the loop visits check-out − check-in + 1 days, none when check-out comes first |
| BookingsIndex.FreeRunMeaning | src/graphql/resolvers/Booking/index.ts:27-31 | the days the walk passes are free, and it stops at the first booked day or at the end |
| BookingsIndex.FreeRunStable | src/graphql/resolvers/Booking/index.ts:27-31 | once a booked day stops the walk, a longer range stops at the same day |
| BookingsIndex.SharedYears | src/graphql/resolvers/Booking/index.ts:12 | the caller sees, after the call, the copy's contents under exactly the years it already had: a date is booked in its view iff its year was already there and the copy books it |
| BookingsIndex.MarkDaysBooked | src/graphql/resolvers/Booking/index.ts:14-34 | after n steps a date is booked iff it was booked before or is a valid date within n days of the start |
| BookingsIndex.MarkDaysKeepsYears | src/graphql/resolvers/Booking/index.ts:19-21 | the walk never removes a year |
| BookingsIndex.MarkDate | src/graphql/resolvers/Booking/index.ts:19-31 | one loop body: free iff the day was not booked; a free day is marked, a booked one leaves the index as it was |
| BookingsIndex.WalkDay | src/graphql/resolvers/Booking/index.ts:15-33 | one iteration keeps the loop invariant (marked prefix, free run, cursor one day further) or stops exactly where the free run ends |
| BookingsIndex.WalkBookings | src/graphql/resolvers/Booking/index.ts:14-34 | the loop succeeds iff every day of the range is free, returns the index with all of them marked, fails only with the overlap error, and the caller's view gets every write to a year it had |
| BookingsIndex.ResolveBookingsIndex | src/graphql/resolvers/Booking/index.ts:9-36 | the outcome is `Resolved` (all days marked, or the overlap error), with the caller's view as above on both paths |
| BookingsIndex.Resolved | src/graphql/resolvers/Booking/index.ts:9-36 | the only error is the overlap message, and a range with check-out first marks nothing |
| BookingsIndex.FailedWalkCallerView | src/graphql/resolvers/Booking/index.ts:12-33 | after a failed walk the caller's index keeps its years and books its old days plus the free days from check-in up to the booked one, in the years it had |
| BookingsIndex.ResolvedOkIff | src/graphql/resolvers/Booking/index.ts:27-31 | success iff no day from check-in to check-out is booked in the input; the only error is the overlap message |
| BookingsIndex.ResolvedBooksExactly | src/graphql/resolvers/Booking/index.ts:19-28 | on success a date is booked iff it was booked before or lies in the range: entries only added, none outside the range |
| BookingsIndex.ResolvedBooksRange | src/graphql/resolvers/Booking/index.ts:14-34 | on success every day of the range is booked |
| BookingsIndex.ResolvedSameDay | src/graphql/resolvers/Booking/index.ts:14-33 | a same-day range of a free day marks exactly that one date |
| BookingsIndex.ConflictWritesThroughSharedYear | src/graphql/resolvers/Booking/index.ts:12-31 | with 2024-01-02 booked, walking 2024-01-01..02 fails yet leaves 2024-01-01 booked in the caller's shared month map |
| Calendar.CivilFromDays | src/graphql/resolvers/Booking/index.ts:15-17 | the UTC year, 0-based month and day of a day ordinal form a valid date |
| Calendar.CivilRoundTrip | src/graphql/resolvers/Booking/index.ts:15-17 | the day ordinal is recovered from its UTC date |
| Calendar.DaysFromCivil | src/graphql/resolvers/Booking/index.ts:10-14 | the day ordinal of a UTC date, `getTime() / 86400000`; its contract is carried by DaysRoundTrip, CivilRoundTrip and DaysFromCivilInjective |
| Calendar.DateAfter | src/graphql/resolvers/Booking/index.ts:33 | the cursor after n steps of one day; its contract is carried by DateAfterOrdinal and DateAfterCivil |
| Calendar.DaysRoundTrip | src/graphql/resolvers/Booking/index.ts:10 | every valid date is the UTC date of its own day ordinal |
| Calendar.CivilInjective | src/graphql/resolvers/Booking/index.ts:15-17 | distinct days have distinct UTC dates, so each index key is one day |
| Calendar.DaysFromCivilInjective | src/graphql/resolvers/Booking/index.ts:15-17 | valid dates with the same ordinal are equal |
| Calendar.NextDate | src/graphql/resolvers/Booking/index.ts:33 | the next day is the following day of the month or a first of the month, and the year changes only into January 1 |
| Calendar.EpochAnchors | src/graphql/resolvers/Booking/index.ts:10 | day 0 is 1970-01-01, day −1 is 1969-12-31, day 19723 is 2024-01-01 |
| Calendar.NewYear2024 | src/graphql/resolvers/Booking/index.ts:10 | day 19723 is 2024-01-01 |
| Calendar.NextDateOrdinal | src/graphql/resolvers/Booking/index.ts:33 | adding 86400000 ms moves a valid date to the valid date one ordinal later, across month, February and year ends |
| Calendar.NextDateOfCivil | src/graphql/resolvers/Booking/index.ts:33 | the day after the date of day z is the date of day z + 1 |
| Calendar.DateAfterCivil | src/graphql/resolvers/Booking/index.ts:33 | n cursor steps from the date of day z reach the date of day z + n |
| Calendar.DateAfterOrdinal | src/graphql/resolvers/Booking/index.ts:33 | n cursor steps keep the date valid and add n to its ordinal |
| Common.Truthy | src/graphql/resolvers/Listing/index.ts:53-60 | JavaScript truthiness of an optional string: present and non-empty; the contracts of Listings, Login and QueryFor state what each truthiness test decides |
| Common.Rethrow | src/graphql/resolvers/Booking/index.ts:116 | a rethrown error is the prefix, then "Error: ", then the original message, and nothing else |
| BookingResolvers.Price | src/graphql/resolvers/Booking/index.ts:73 | the charge on millisecond timestamps is price × (days between + 1), i.e. price × the number of days walked |
| BookingResolvers.PriceExamples | src/graphql/resolvers/Booking/index.ts:73 | 100 over 2024-01-01..03 is 300, one day is 100, 50 over 2024-03-01..02 is 100 |
| BookingResolvers.Guards | src/graphql/resolvers/Booking/index.ts:49-78 | the guards run in the source's order and the first that fails names the error: no authorized viewer gives the login message, a missing listing the query message, the viewer's own listing the own-listing message, check-out before check-in the date message, a walk that meets a booked day the overlap message, a host without a wallet the wallet message; a pass carries the authorized viewer, the stored listing and the index the walk resolved |
| BookingResolvers.GuardsVerdict | src/graphql/resolvers/Booking/index.ts:49-78 | the guards pass iff logged in, listing found, not the host, dates in order, every day free, host with a wallet; a pass names a tenant other than the host, an index booking every day of the range and the full price |
| BookingResolvers.BookedDayRejected | src/graphql/resolvers/Booking/index.ts:66-70 | once viewer, listing and dates pass, any already booked day in the range gives the overlap message, before the wallet is looked at |
| BookingResolvers.WalletCheckedLast | src/graphql/resolvers/Booking/index.ts:73-78 | a free range on a listing whose host is missing or has no wallet gives the wallet message |
| BookingResolvers.OwnListingRejectedFirst | src/graphql/resolvers/Booking/index.ts:59-61 | booking one's own listing fails with that message whatever the dates |
| BookingResolvers.BadRangeRejectedBeforeIndex | src/graphql/resolvers/Booking/index.ts:66-70 | check-out before check-in fails before the index walk, never with an overlap |
| BookingResolvers.CheckGuards | src/graphql/resolvers/Booking/index.ts:49-78 | the imperative guard sequence gives the `Guards` verdict, drawn from the stored viewer, listing and host |
| BookingResolvers.Credited | src/graphql/resolvers/Booking/index.ts:92-97 | the `$inc` of the host's income; its contract is carried by BookingUserWrites |
| BookingResolvers.WithBooking | src/graphql/resolvers/Booking/index.ts:98-104 | the `$push` onto the tenant's bookings; its contract is carried by BookingUserWrites |
| BookingResolvers.ListingWithBooking | src/graphql/resolvers/Booking/index.ts:105-111 | the `$set` of the index and the `$push` onto the listing's bookings; its contract is carried by RecordBooking |
| BookingResolvers.BookingUserWrites | src/graphql/resolvers/Booking/index.ts:92-104 | host income rises by exactly the price, the tenant's bookings gain the id, nothing else of theirs or of other users changes |
| BookingResolvers.RecordBooking | src/graphql/resolvers/Booking/index.ts:82-112 | insert, `$inc`, both `$push`es and `$set` of the index, and nothing else; the database stays well-formed |
| BookingResolvers.CreateBooking | src/graphql/resolvers/Booking/index.ts:40-118 | a failed guard charges and writes nothing; a charge of the price to the host's wallet otherwise; a refused charge writes nothing; success writes exactly the booking, the host's income, the tenant's and listing's lists and the new index; errors rethrown with the prefix |
| Utils.Authorize | src/libs/utils/index.ts:8-16 | the user whose id is the cookie and whose token equals the header, else null |
| Utils.AuthorizeMatchesBoth | build/libs/utils/index.js:19-26 | in a well-keyed collection a user is found iff both the cookie and the header name it |
| Utils.Present | src/libs/utils/index.ts:33-35 | a missing or empty field becomes null, a non-empty one is kept |
| Utils.ParseAddress | src/libs/utils/index.ts:32-46 | null parts for missing or empty fields or a missing entry, `admin` from `state`, "United States of America" rewritten to "United States", other countries unchanged |
| Utils.ParseAddressNormal | build/libs/utils/index.js:38-50 | every part of a parsed address is null or non-empty, and the long US name never survives |
| Utils.ParseAddressIdempotent | src/libs/utils/index.ts:32-46 | parsing a parsed address again changes nothing |
| Utils.Geocode | build/libs/utils/index.js:51-60 | a geocoder failure is rethrown with "Failed to geocode: "; otherwise the address is `ParseAddress` of the first entry, all null when there is none |
| Utils.GeocodeFirstEntryOnly | src/libs/utils/index.ts:48-56 | answers agreeing on the first entry geocode alike, and an empty answer gives an all-null address |
| JsStrings.Utf16Length | build/graphql/resolvers/Listing/index.js:19 | `length` counts UTF-16 units: between one and two per character, one each inside the Basic Multilingual Plane, two each outside it |
| JsStrings.Utf16Concat | build/graphql/resolvers/Listing/index.js:19-24 | lengths add up over concatenation, so with the per-character counts above `length` is fixed for every string |
| JsStrings.IsJsWhitespace | src/graphql/resolvers/Listing/index.ts:65 | the whitespace and line terminators `trim` removes; its contract is carried by TrimStart, TrimEnd and Trim |
| JsStrings.TrimStart | src/graphql/resolvers/Listing/index.ts:65 | a suffix whose removed prefix is all whitespace and which does not start with whitespace |
| JsStrings.TrimEnd | src/graphql/resolvers/Listing/index.ts:65 | a prefix whose removed suffix is all whitespace and which does not end with whitespace |
| JsStrings.Trim | src/graphql/resolvers/Listing/index.ts:65 | `trim` never lengthens and leaves a result that starts and ends with a non-blank |
| JsStrings.TrimAround | src/graphql/resolvers/Listing/index.ts:65 | trimming leading blanks off a clean word gives the word |
| JsStrings.DigitPrefix | build/graphql/resolvers/Viewer/index.js:25 | the longest run of digits at the start |
| JsStrings.ParseInt | build/graphql/resolvers/Viewer/index.js:25 | `parseInt` is NaN iff no digit follows the blanks, sign and hex prefix |
| JsStrings.NumberOf | src/graphql/resolvers/Viewer/index.ts:80 | unary `+`: blank is 0, otherwise only a whole signed decimal or hex numeral is a number |
| JsStrings.ParseIntOfDigits | build/graphql/resolvers/Viewer/index.js:25 | `parseInt` reads a run of decimal digits whole |
| JsStrings.NumberOfDigits | src/graphql/resolvers/Viewer/index.ts:80 | `+` reads a run of decimal digits whole |
| JsStrings.NumberOfNegative | src/graphql/resolvers/Viewer/index.ts:80 | `+` reads "-" and a decimal digit run as the negated value |
| JsStrings.NumberOfHex | src/graphql/resolvers/Viewer/index.ts:80 | `+` reads "0x" and a hexadecimal digit run in base 16 |
| ListingResolvers.VerifyHostListingInputs | build/graphql/resolvers/Listing/index.js:17-31 | accepted iff title ≤ 100 and description ≤ 5000 UTF-16 units, type APARTMENT or HOUSE and price ≥ 0; otherwise each of the four messages exactly when its check is the first to fail, in the order title, description, type, price |
| ListingResolvers.ZeroPriceAccepted | build/graphql/resolvers/Listing/index.js:28-30 | for either listing type, price 0 passes and a negative price fails with the price message |
| ListingResolvers.Hosted | build/graphql/resolvers/Listing/index.js:107-123 | validation before login; success iff valid, logged in and the geocode has country, admin and city; a geocoder error is passed on and an incomplete address is "Invalid Address Input"; the new listing has the input's fields including its type, the geocoded place, no bookings, an empty index and the viewer as host |
| ListingResolvers.KindOf | build/graphql/resolvers/Listing/index.js:121 | defined on the two enum values only, which validation has already enforced: "APARTMENT" is an apartment and "HOUSE" a house |
| ListingResolvers.HostListing | build/graphql/resolvers/Listing/index.js:107-130 | the outcome is `Hosted`; success inserts the listing and appends its id to the host's listings, failure writes nothing |
| ListingResolvers.ListingQuery | src/graphql/resolvers/Listing/index.ts:18-39 | a missing listing is the wrapped "listing can't be found"; otherwise the stored listing, marked authorized iff the session user is its host |
| ListingResolvers.ListingAuthorizedOnlyForHost | src/graphql/resolvers/Listing/index.ts:29-33 | the mark is set iff the cookie names the host and the header is the host's token |
| ListingResolvers.HostOf | src/graphql/resolvers/Listing/index.ts:110-116 | the host's document, or "host can't be found" |
| ListingResolvers.SkipFor | src/graphql/resolvers/Listing/index.ts:93 | pages 1 and below skip nothing |
| ListingResolvers.SkipForNext | src/graphql/resolvers/Listing/index.ts:93 | each page starts `limit` documents after the one before |
| ListingResolvers.Page | src/graphql/resolvers/Listing/index.ts:93-94 | at most `limit` documents (0 means all), a contiguous run from `skip`, full unless it reaches the end |
| ListingResolvers.PageSlice | src/graphql/resolvers/Listing/index.ts:93-94 | a page is the slice from skip to skip + limit, capped at the end |
| ListingResolvers.PagesTile | src/graphql/resolvers/Listing/index.ts:93-94 | pages 1..n neither skip nor repeat a document: together they are the first n × limit |
| ListingResolvers.SortByKey | src/graphql/resolvers/Listing/index.ts:85-91 | the cursor sort returns the same documents, ordered by price in the requested direction |
| ListingResolvers.NaturalSortKeepsOrder | src/graphql/resolvers/Listing/index.ts:80-91 | without a price filter the natural order is kept |
| ListingResolvers.GuestsFor | src/graphql/resolvers/Listing/index.ts:69-77 | NUM_OF_GUESTS_1 → = 1, NUM_OF_GUESTS_2 → = 2, NUM_OF_GUESTS_GT_2 → > 2, anything else no condition |
| ListingResolvers.OrderFor | src/graphql/resolvers/Listing/index.ts:85-91 | PRICE_HIGH_TO_LOW sorts descending, PRICE_LOW_TO_HIGH ascending |
| ListingResolvers.QueryFor | src/graphql/resolvers/Listing/index.ts:52-77 | each place field is constrained iff the geocoded part is truthy, to that part; the guest condition is the filter's |
| ListingResolvers.Filter | src/graphql/resolvers/Listing/index.ts:80 | the accepted elements, each as often as in the input, and only those |
| ListingResolvers.KeptOrdered | src/graphql/resolvers/Listing/index.ts:80 | the positions a selection keeps are strictly increasing |
| ListingResolvers.KeptMeaning | src/graphql/resolvers/Listing/index.ts:80 | a selection is the input read at the kept positions, and every accepted position is kept |
| ListingResolvers.Matches | src/graphql/resolvers/Listing/index.ts:55-80 | the find filter: each set place field must equal the listing's and the guest condition must hold; its contract is carried by MatchingListings and QueryFor |
| ListingResolvers.MatchingListings | src/graphql/resolvers/Listing/index.ts:80 | exactly the matching listings, each as often as stored, in natural order: the stored listings at increasing positions covering every match |
| ListingResolvers.Region | src/graphql/resolvers/Listing/index.ts:64-65 | the region line is no longer than the untrimmed line and starts and ends with a non-blank |
| ListingResolvers.RegionForms | src/graphql/resolvers/Listing/index.ts:64-65 | the region line is "city, admin, country", "admin, country", "country", or "city,  country" (two spaces); for place names without surrounding blanks, it always ends with the country |
| ListingResolvers.Listings | src/graphql/resolvers/Listing/index.ts:40-103 | no location means no region and no place constraint; the call fails iff a location is given and its geocode errs or yields no country, with the wrapped message; otherwise it succeeds with the region, the number of matches and the requested page of the price-sorted matches |
| ListingResolvers.ListingsPageMeaning | src/graphql/resolvers/Listing/index.ts:80-97 | a listings page holds only matching listings, at most `limit` of them, in the requested price order |
| ListingResolvers.BookingsAmong | src/graphql/resolvers/Listing/index.ts:135-137 | exactly the bookings whose id the listing lists, each as often as stored, in natural order |
| ListingResolvers.ListingBookings | src/graphql/resolvers/Listing/index.ts:120-149 | null iff the listing is not authorized; otherwise the requested page of the listing's bookings in natural order, with their full count |
| ViewerResolvers.First | src/graphql/resolvers/Viewer/index.ts:22-24 | an empty list reads as a missing one; otherwise its first entry |
| ViewerResolvers.ExtractProfile | src/graphql/resolvers/Viewer/index.ts:22-44 | "Google login error" unless the first name has an id and a display name and the first photo and email are non-empty; then exactly those four |
| ViewerResolvers.ProfileFromFirstEntries | src/graphql/resolvers/Viewer/index.ts:22-39 | only the first entry of each list matters, and an empty list equals a missing one |
| ViewerResolvers.CookieExpirySrc | src/graphql/resolvers/Viewer/index.ts:79-81 | 30 days when unset or empty, else `+COOKIE_EXPIRY` days in ms (NaN when not a number) |
| ViewerResolvers.CookieExpiryBuild | build/graphql/resolvers/Viewer/index.js:24-26 | 30 days when unset or empty, else `parseInt(COOKIE_EXPIRY)` days in ms |
| ViewerResolvers.CookieExpiryAgrees | build/graphql/resolvers/Viewer/index.js:24-26 | both lifetimes agree on unset, empty and plain decimal settings: that many days |
| ViewerResolvers.CookieExpiryDiffers | src/graphql/resolvers/Viewer/index.ts:79-81 | "12abc" is NaN to the TypeScript source and 12 days to the compiled module |
| ViewerResolvers.ViewerOf | src/graphql/resolvers/Viewer/index.ts:138-144 | a logged-in Viewer carries the user's id, token, avatar and wallet, with `didRequest` |
| ViewerResolvers.HasWallet | src/graphql/resolvers/Viewer/index.ts:162-164 | true iff the wallet id is truthy, else undefined |
| ViewerResolvers.Upserted | src/graphql/resolvers/Viewer/index.ts:47-76 | an existing user gets name, avatar, contact and token overwritten and keeps the rest; a new one has income 0 and no bookings or listings |
| ViewerResolvers.UpsertTwice | src/graphql/resolvers/Viewer/index.ts:47-58 | a second Google login of the same profile leaves what it alone would: only the token differs |
| ViewerResolvers.LoginViaGoogle | src/graphql/resolvers/Viewer/index.ts:15-88 | a failed, missing or incomplete answer errs and writes nothing; a complete profile always logs in: the profile is upserted under its id with the fresh token and the cookie is set to the id with the lifetime `+COOKIE_EXPIRY` days gives (`CookieExpirySrc`) |
| ViewerResolvers.LoginViaCookie | src/graphql/resolvers/Viewer/index.ts:90-104 | the cookie's user gets the fresh token; with no such user the cookie is cleared and nothing is written |
| ViewerResolvers.UpsertedKeyed | build/graphql/resolvers/Viewer/index.js:61-73 | in a well-keyed collection the upserted user carries the profile's id |
| ViewerResolvers.Login | src/graphql/resolvers/Viewer/index.ts:117-148 | a truthy code goes through Google: a complete profile always logs in, the Viewer is the profile's user, upserted with the fresh token, and the cookie is set to its id with the `CookieExpirySrc` lifetime, while a Google failure, a missing user and an incomplete profile each give "Unable to login: Error: " and that message; anything else goes through the cookie: the Viewer is the cookie's user with the fresh token and the cookie is kept, or, with no such user, only `didRequest`, the cookie cleared and nothing written; other users are untouched; errors are wrapped and write nothing |
| ViewerResolvers.LoginAsGuest | build/graphql/resolvers/Viewer/index.js:133-154 | the fixed guest id: its Viewer and a cookie with the compiled module's `parseInt` lifetime (`CookieExpiryBuild`) when the user exists, otherwise only `didRequest` and no cookie |
| ViewerResolvers.Logout | build/graphql/resolvers/Viewer/index.js:124-132 | the cookie is cleared and the answer is the empty Viewer, only `didRequest`; the stored token is not touched |

## Left out

- The `Booking.id`, `Booking.listing`, `Booking.tenant`, `Listing.id`, `Listing.bookingsIndex` (JSON text) and `Viewer.id` field resolvers and the `authUrl` query are left out. They are single lookups or renderings with nothing to state.
- `ObjectId` parsing is not modelled: identifiers are strings, so the error an ill-formed listing id throws is absent. The stored `_id` of a new document is the `newId` parameter.
- `Date` string parsing is not modelled: check-in and check-out are day ordinals. An unparsable date string (an Invalid Date, whose comparisons are all false) is not modelled.
- Database and driver failures are left out, and with them the "Failed to query user bookings", "Unable to login as guest" and "Failed to log out" wraps. The same goes for a partial failure among the four writes that follow a successful charge. Every write either happens or the store is unreachable.
- Concurrency is left out: two bookings racing on the same listing's index are outside a sequential model.
- `Google.login`, `Stripe.charge`, the OpenStreetMap geocoder and `crypto.randomBytes` are parameters: their answers, failures and fresh values are inputs.
- ListingResolvers.Listings: ties in the price sort keep the natural order. The driver does not promise this, so only the sortedness and the set of documents are what the source guarantees.
- ListingResolvers.Listings: `total` is `cursor.count()`, which, as the 3.x driver defines it, ignores skip and limit; the model counts every match. `limit` is taken as non-negative (the schema's `Int!` is not checked for sign).
- ListingResolvers.ListingBookings: the same `count()` reading applies, and `$in` over a listing's booking ids is modelled as a filter of the bookings collection in natural order.
- JsStrings.NumberOf: fractions, exponents, `0o`/`0b` literals and `Infinity` are treated as NaN, and a `COOKIE_EXPIRY` written that way gets NaN where JavaScript would compute a lifetime. A signed hexadecimal form such as `-0x10` is NaN in both JavaScript and the model. What `res.cookie` does with a NaN `maxAge` is not modelled; the NaN reaches the cookie action as `None`.
- JsStrings.Utf16Length: a JavaScript string may hold a lone surrogate (from a GraphQL `"\ud800"` escape), which `length` counts as one unit; a Dafny `char` cannot hold one, so such titles and descriptions are outside the model.
- JsStrings.Trim: its own contract gives the length bound and the non-blank ends only; that the result is the run of the input between the removed leading and trailing whitespace is stated by the contracts of TrimStart and TrimEnd, which it composes.
- JsStrings.ParseInt: only radix 10 and a `0x` prefix are modelled; very long digit strings are exact integers rather than rounded doubles.
- The `ListingType` enum values are taken to be "APARTMENT" and "HOUSE"; the enum declaration is not part of this model.
- BookingResolvers.Price: integer day ordinals make the millisecond difference an exact multiple of 86400000, so the floating-point division of the source is exact here; a fractional day is not modelled.
- `stripeConnect`, `stripeDisconnect`, `deleteListing` and the `User` resolvers are not part of this model.
