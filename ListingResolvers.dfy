/** The listing resolvers: the host-listing mutation with its input checks,
    the `listing` and `listings` queries, and the `Listing.host` and
    `Listing.bookings` field resolvers. */
module ListingResolvers {
  import opened Common
  import opened Store
  import opened Utils
  import opened JsStrings

  // ---------------------------------------------------------------------------
  // hostListing
  // ---------------------------------------------------------------------------

  /** The host-listing input; `kind` is the value of the schema's
      `ListingType` enum as the resolver receives it. */
  datatype HostListingInput = HostListingInput(
    title: string,
    description: string,
    image: string,
    kind: string,
    address: string,
    price: int,
    numOfGuests: int)

  const ApartmentValue := "APARTMENT"
  const HouseValue := "HOUSE"
  const TitleTooLong := "listing title must be under 100 characters"
  const DescriptionTooLong := "listing description must be under 5000 characters"
  const BadListingType := "listing type must be either an apartment or house"
  const NegativePrice := "price must be greater than 0"
  const NotLoggedIn := "You must be logged in to create a new Listing."
  const InvalidAddress := "Invalid Address Input"

  /** verifyHostListingInputs: the first check that fails, in source order,
      or None when the input is acceptable. */
  function VerifyHostListingInputs(input: HostListingInput): (error: Option<string>)
    ensures error.None? <==>
      && Utf16Length(input.title) <= 100
      && Utf16Length(input.description) <= 5000
      && (input.kind == ApartmentValue || input.kind == HouseValue)
      && input.price >= 0
    ensures error == Some(TitleTooLong) <==> Utf16Length(input.title) > 100
    ensures error == Some(DescriptionTooLong) <==>
      Utf16Length(input.title) <= 100 && Utf16Length(input.description) > 5000
    ensures error == Some(BadListingType) <==>
      && Utf16Length(input.title) <= 100 && Utf16Length(input.description) <= 5000
      && input.kind != ApartmentValue && input.kind != HouseValue
    ensures error == Some(NegativePrice) <==>
      && Utf16Length(input.title) <= 100 && Utf16Length(input.description) <= 5000
      && (input.kind == ApartmentValue || input.kind == HouseValue)
      && input.price < 0
    ensures error.Some? ==> error.value in {TitleTooLong, DescriptionTooLong, BadListingType, NegativePrice}
  {
    if Utf16Length(input.title) > 100 then Some(TitleTooLong)
    else if Utf16Length(input.description) > 5000 then Some(DescriptionTooLong)
    else if input.kind != ApartmentValue && input.kind != HouseValue then Some(BadListingType)
    else if input.price < 0 then Some(NegativePrice)
    else None
  }

  /** A free listing passes the price check; only a negative price fails it. */
  lemma ZeroPriceAccepted(input: HostListingInput)
    requires Utf16Length(input.title) <= 100 && Utf16Length(input.description) <= 5000
    requires input.kind == ApartmentValue || input.kind == HouseValue
    ensures input.price == 0 ==> VerifyHostListingInputs(input).None?
    ensures input.price < 0 ==> VerifyHostListingInputs(input) == Some(NegativePrice)
  {
  }

  /** The listing type named by the enum value. */
  function KindOf(kind: string): (t: ListingType)
    requires kind == ApartmentValue || kind == HouseValue
    ensures kind == ApartmentValue ==> t == Apartment
    ensures kind == HouseValue ==> t == House
  {
    if kind == ApartmentValue then Apartment else House
  }

  /** The outcome of hostListing: the input checks, then the session, then
      the geocoder, whose address must have a country, a region and a city.
      Its errors are not wrapped. */
  function Hosted(users: map<string, User>, cookie: Option<string>, header: Option<string>,
                  input: HostListingInput, response: GeocoderResponse, newId: string): (r: Result<ListingDoc>)
    ensures VerifyHostListingInputs(input).Some? ==> r == Err(VerifyHostListingInputs(input).value)
    ensures VerifyHostListingInputs(input).None? && Authorize(users, cookie, header).None? ==> r == Err(NotLoggedIn)
    ensures VerifyHostListingInputs(input).None? && Authorize(users, cookie, header).Some? && Geocode(response).Err? ==>
      r == Err(Geocode(response).error)
    ensures (VerifyHostListingInputs(input).None? && Authorize(users, cookie, header).Some? &&
             Geocode(response).Ok? && r.Err?) ==> r == Err(InvalidAddress)
    ensures r.Ok? <==>
      && VerifyHostListingInputs(input).None?
      && Authorize(users, cookie, header).Some?
      && Geocode(response).Ok?
      && Geocode(response).value.country.Some?
      && Geocode(response).value.admin.Some?
      && Geocode(response).value.city.Some?
    ensures r.Ok? ==>
      var a := Geocode(response).value;
      && r.value.id == newId && r.value.host == Authorize(users, cookie, header).value.id
      && r.value.bookings == [] && r.value.bookingsIndex == map[] && !r.value.authorized
      && r.value.title == input.title && r.value.description == input.description
      && r.value.image == input.image && r.value.address == input.address
      && r.value.price == input.price && r.value.numOfGuests == input.numOfGuests
      && (input.kind == ApartmentValue ==> r.value.kind == Apartment)
      && (input.kind == HouseValue ==> r.value.kind == House)
      && r.value.country == a.country.value && r.value.admin == a.admin.value && r.value.city == a.city.value
  {
    var invalid := VerifyHostListingInputs(input);
    if invalid.Some? then Err(invalid.value)
    else
      var viewer := Authorize(users, cookie, header);
      if viewer.None? then Err(NotLoggedIn)
      else
        var geo := Geocode(response);
        if geo.Err? then Err(geo.error)
        else if !Truthy(geo.value.country) || !Truthy(geo.value.admin) || !Truthy(geo.value.city) then Err(InvalidAddress)
        else Ok(ListingDoc(newId, input.title, input.description, input.image, KindOf(input.kind), input.address,
                           input.price, input.numOfGuests, geo.value.country.value, geo.value.admin.value,
                           geo.value.city.value, viewer.value.id, [], map[], false))
  }

  /** hostListing: on success the new listing is inserted under the fresh id
      and its id is pushed onto the host's listings; on failure nothing is
      written. `response` is the geocoder's answer for the input's address. */
  method HostListing(db: Database, cookie: Option<string>, header: Option<string>,
                     input: HostListingInput, response: GeocoderResponse, newId: string)
    returns (r: Result<ListingDoc>)
    requires db.Valid()
    requires newId !in db.listings
    modifies db
    ensures db.Valid()
    ensures r == Hosted(old(db.users), cookie, header, input, response, newId)
    ensures r.Err? ==>
      && db.users == old(db.users) && db.listings == old(db.listings) && db.listingOrder == old(db.listingOrder)
    ensures r.Ok? ==>
      && db.listings == old(db.listings)[newId := r.value]
      && db.listingOrder == old(db.listingOrder) + [newId]
      && var host := old(db.users)[r.value.host];
         db.users == old(db.users)[r.value.host := host.(listings := host.listings + [newId])]
    ensures db.bookings == old(db.bookings) && db.bookingOrder == old(db.bookingOrder)
  {
    var invalid := VerifyHostListingInputs(input);
    if invalid.Some? {
      return Err(invalid.value);
    }
    var viewer := Authorize(db.users, cookie, header);
    if viewer.None? {
      return Err(NotLoggedIn);
    }
    var geo := Geocode(response);
    if geo.Err? {
      return Err(geo.error);
    }
    var a := geo.value;
    if !Truthy(a.country) || !Truthy(a.admin) || !Truthy(a.city) {
      return Err(InvalidAddress);
    }
    var listing := ListingDoc(newId, input.title, input.description, input.image, KindOf(input.kind),
                              input.address, input.price, input.numOfGuests, a.country.value, a.admin.value,
                              a.city.value, viewer.value.id, [], map[], false);
    db.listings := db.listings[newId := listing];
    db.listingOrder := db.listingOrder + [newId];
    var host := viewer.value;
    db.users := db.users[host.id := host.(listings := host.listings + [newId])];
    r := Ok(listing);
  }

  // ---------------------------------------------------------------------------
  // The listing query and the Listing field resolvers
  // ---------------------------------------------------------------------------

  const ListingPrefix := "Unable to query listing: "
  const ListingNotFound := "listing can't be found"
  const HostNotFound := "host can't be found"

  /** The `listing` query: the stored listing, marked authorized for the
      viewer who hosts it; a missing listing is an error. The mark is set on
      the returned copy only. */
  function ListingQuery(users: map<string, User>, listings: map<string, ListingDoc>, id: string,
                        cookie: Option<string>, header: Option<string>): (r: Result<ListingDoc>)
    ensures r.Err? <==> id !in listings
    ensures r.Err? ==> r.error == Rethrow(ListingPrefix, ListingNotFound)
    ensures r.Ok? ==> r.value.(authorized := listings[id].authorized) == listings[id]
    ensures r.Ok? ==>
      (r.value.authorized <==>
        listings[id].authorized ||
        (Authorize(users, cookie, header).Some? && Authorize(users, cookie, header).value.id == listings[id].host))
  {
    if id !in listings then Err(Rethrow(ListingPrefix, ListingNotFound))
    else
      var listing := listings[id];
      var viewer := Authorize(users, cookie, header);
      if viewer.Some? && viewer.value.id == listing.host then Ok(listing.(authorized := true))
      else Ok(listing)
  }

  /** Only the listing's host sees it authorized: for a stored listing that
      is not marked, the mark is set exactly when the cookie names the host
      and the header carries the host's token. */
  lemma ListingAuthorizedOnlyForHost(users: map<string, User>, listings: map<string, ListingDoc>, id: string,
                                     cookie: Option<string>, header: Option<string>)
    requires forall u :: u in users ==> users[u].id == u
    requires id in listings && !listings[id].authorized
    ensures ListingQuery(users, listings, id, cookie, header).value.authorized <==>
      (cookie == Some(listings[id].host) && listings[id].host in users && users[listings[id].host].token == header)
  {
    var viewer := Authorize(users, cookie, header);
    if viewer.Some? {
      AuthorizeMatchesBoth(users, cookie, header, viewer.value);
    }
  }

  /** `Listing.host`: the host's user document, or an error when it is gone. */
  function HostOf(users: map<string, User>, listing: ListingDoc): (r: Result<User>)
    ensures r.Ok? <==> listing.host in users
    ensures r.Ok? ==> r.value == users[listing.host]
    ensures r.Err? ==> r.error == HostNotFound
  {
    if listing.host in users then Ok(users[listing.host]) else Err(HostNotFound)
  }

  // ---------------------------------------------------------------------------
  // Cursors: selection, sorting, skip and limit
  // ---------------------------------------------------------------------------

  /** How many documents to skip for a 1-based page; pages from 0 down all
      start at the beginning. */
  function SkipFor(page: int, limit: nat): (n: nat)
    ensures page <= 1 ==> n == 0
  {
    if page > 0 then (page - 1) * limit else 0
  }

  /** Page 1 starts at the beginning and each further page starts `limit`
      documents after the one before it. */
  lemma SkipForNext(page: int, limit: nat)
    requires page >= 1
    ensures SkipFor(page + 1, limit) == SkipFor(page, limit) + limit
  {
  }

  /** `cursor.skip(skip).limit(limit)`: a limit of 0 means no limit. The page
      is the run of `s` starting at `skip`, and it is full unless it reaches
      the end of `s`. */
  function Page<T>(s: seq<T>, skip: nat, limit: nat): (r: seq<T>)
    ensures limit > 0 ==> |r| <= limit
    ensures forall i :: 0 <= i < |r| ==> skip + i < |s| && r[i] == s[skip + i]
    ensures skip + |r| >= |s| || (limit > 0 && |r| == limit)
  {
    var rest := if skip <= |s| then s[skip..] else [];
    if limit == 0 || |rest| <= limit then rest else rest[..limit]
  }

  /** The first `pages` pages, one after the other. */
  function FirstPages<T>(s: seq<T>, limit: nat, pages: nat): seq<T> {
    if pages == 0 then [] else FirstPages(s, limit, pages - 1) + Page(s, SkipFor(pages, limit), limit)
  }

  /** `find` with a selector: the elements of `s` that `keep` accepts, in
      their order in `s`, each as often as it occurs there. */
  function Filter<T(!new)>(s: seq<T>, keep: T -> bool): (r: seq<T>)
    ensures |r| <= |s|
    ensures forall x :: multiset(r)[x] == if keep(x) then multiset(s)[x] else 0
    ensures forall i :: 0 <= i < |r| ==> r[i] in s && keep(r[i])
    ensures forall i :: 0 <= i < |s| && keep(s[i]) ==> s[i] in r
  {
    if |s| == 0 then []
    else
      assert s == [s[0]] + s[1..];
      (if keep(s[0]) then [s[0]] else []) + Filter(s[1..], keep)
  }

  /** The positions from `from` on whose elements `keep` accepts, in
      increasing order. */
  ghost function Kept<T>(s: seq<T>, keep: T -> bool, from: nat): seq<nat>
    requires from <= |s|
    decreases |s| - from
  {
    if from == |s| then []
    else if keep(s[from]) then [from] + Kept(s, keep, from + 1)
    else Kept(s, keep, from + 1)
  }

  /** `idx` holds positions in `lo..hi`, in strictly increasing order. */
  ghost predicate Increasing(idx: seq<nat>, lo: nat, hi: nat) {
    && (forall i :: 0 <= i < |idx| ==> lo <= idx[i] < hi)
    && (forall i, j :: 0 <= i < j < |idx| ==> idx[i] < idx[j])
  }

  /** `r` lists the elements of `s` at the positions `idx`, one for one. */
  ghost predicate PicksOut<T>(s: seq<T>, idx: seq<nat>, r: seq<T>) {
    && |idx| == |r|
    && (forall i :: 0 <= i < |idx| ==> idx[i] < |s| && s[idx[i]] == r[i])
  }

  /** The `Kept` positions lie from `from` on, in strictly increasing order. */
  lemma {:induction false} KeptOrdered<T>(s: seq<T>, keep: T -> bool, from: nat)
    requires from <= |s|
    ensures Increasing(Kept(s, keep, from), from, |s|)
    decreases |s| - from
  {
    if from < |s| {
      KeptOrdered(s, keep, from + 1);
      var rest := Kept(s, keep, from + 1);
      if keep(s[from]) {
        var idx := [from] + rest;
        assert Kept(s, keep, from) == idx;
        forall i | 0 <= i < |idx|
          ensures from <= idx[i] < |s|
        {
          if i > 0 {
            assert idx[i] == rest[i - 1];
          }
        }
        forall i, j | 0 <= i < j < |idx|
          ensures idx[i] < idx[j]
        {
          assert idx[j] == rest[j - 1];
          if i > 0 {
            assert idx[i] == rest[i - 1];
          }
        }
      }
    }
  }

  /** `Filter` takes exactly the elements at the `Kept` positions, and every
      accepted position is one of them. */
  lemma {:induction false} KeptMeaning<T(!new)>(s: seq<T>, keep: T -> bool, from: nat)
    requires from <= |s|
    ensures PicksOut(s, Kept(s, keep, from), Filter(s[from..], keep))
    ensures forall k :: from <= k < |s| && keep(s[k]) ==> k in Kept(s, keep, from)
    decreases |s| - from
  {
    if from < |s| {
      KeptMeaning(s, keep, from + 1);
      var t := s[from..];
      assert t[0] == s[from] && t[1..] == s[from + 1..];
      var rest := Kept(s, keep, from + 1);
      var tail := Filter(s[from + 1..], keep);
      if keep(s[from]) {
        assert Filter(t, keep) == [s[from]] + tail;
        var idx := [from] + rest;
        assert Kept(s, keep, from) == idx;
        forall i | 0 <= i < |idx|
          ensures idx[i] < |s| && s[idx[i]] == Filter(t, keep)[i]
        {
          if i > 0 {
            assert idx[i] == rest[i - 1];
          }
        }
      } else {
        assert Filter(t, keep) == tail;
      }
    }
  }

  /** `n` capped at the length `len`. */
  function Upto(n: nat, len: nat): nat {
    if n <= len then n else len
  }

  /** With a positive limit, a page is the slice of `s` from `skip` to
      `skip + limit`, both capped at the end of `s`. */
  lemma PageSlice<T>(s: seq<T>, skip: nat, limit: nat)
    requires limit > 0
    ensures Page(s, skip, limit) == s[Upto(skip, |s|)..Upto(skip + limit, |s|)]
  {
  }

  /** Two consecutive capped slices of `s` make up the longer prefix. */
  lemma PrefixSplit<T>(s: seq<T>, a: nat, b: nat)
    requires a <= b
    ensures s[..Upto(a, |s|)] + s[Upto(a, |s|)..Upto(b, |s|)] == s[..Upto(b, |s|)]
  {
  }

  /** With a positive limit, pages 1, 2, ... neither skip nor repeat a
      document: the first `pages` of them are the first `pages * limit`
      documents. */
  lemma {:induction false} PagesTile<T>(s: seq<T>, limit: nat, pages: nat)
    requires limit > 0
    ensures FirstPages(s, limit, pages) == s[..Upto(pages * limit, |s|)]
  {
    if pages > 0 {
      PagesTile(s, limit, pages - 1);
      var skip := SkipFor(pages, limit);
      assert skip == (pages - 1) * limit && skip + limit == pages * limit;
      PageSlice(s, skip, limit);
      PrefixSplit(s, skip, skip + limit);
    }
  }

  /** The two sort directions, and the natural order of an unsorted cursor. */
  datatype SortOrder = Natural | Ascending | Descending

  /** A document with key `a` may come before one with key `b`. */
  predicate InOrder(a: int, b: int, order: SortOrder) {
    match order
    case Natural => true
    case Ascending => a <= b
    case Descending => a >= b
  }

  /** `s` is ordered by `key` in the direction `order`. */
  predicate SortedBy<T>(s: seq<T>, key: T -> int, order: SortOrder) {
    forall i, j :: 0 <= i < j < |s| ==> InOrder(key(s[i]), key(s[j]), order)
  }

  /** `x` placed in front of the first document it may precede. */
  function Insert<T>(x: T, s: seq<T>, key: T -> int, order: SortOrder): (r: seq<T>)
    requires SortedBy(s, key, order)
    ensures SortedBy(r, key, order)
    ensures multiset(r) == multiset(s) + multiset{x}
  {
    if |s| == 0 then [x]
    else if InOrder(key(x), key(s[0]), order) then [x] + s
    else
      var tail := Insert(x, s[1..], key, order);
      InsertAfterHead(x, s, tail, key, order);
      assert s == [s[0]] + s[1..];
      [s[0]] + tail
  }

  /** The head of a sorted sequence may precede every document of the
      insertion into its tail, when `x` may not precede the head. */
  lemma InsertAfterHead<T>(x: T, s: seq<T>, tail: seq<T>, key: T -> int, order: SortOrder)
    requires |s| > 0 && SortedBy(s, key, order) && !InOrder(key(x), key(s[0]), order)
    requires multiset(tail) == multiset(s[1..]) + multiset{x}
    ensures forall j :: 0 <= j < |tail| ==> InOrder(key(s[0]), key(tail[j]), order)
  {
    forall j | 0 <= j < |tail| ensures InOrder(key(s[0]), key(tail[j]), order) {
      assert tail[j] in multiset(tail);
      if tail[j] != x {
        assert tail[j] in multiset(s[1..]);
        var k :| 0 <= k < |s[1..]| && s[1..][k] == tail[j];
        assert s[k + 1] == tail[j];
      }
    }
  }

  /** An insertion sort by `key`: the same documents, ordered; the natural
      order sorts nothing. */
  function SortByKey<T>(s: seq<T>, key: T -> int, order: SortOrder): (r: seq<T>)
    ensures SortedBy(r, key, order)
    ensures multiset(r) == multiset(s)
  {
    if |s| == 0 then []
    else
      assert s == [s[0]] + s[1..];
      Insert(s[0], SortByKey(s[1..], key, order), key, order)
  }

  /** Without a sort the cursor keeps the natural order. */
  lemma {:induction false} NaturalSortKeepsOrder<T>(s: seq<T>, key: T -> int)
    ensures SortByKey(s, key, Natural) == s
  {
    if |s| > 0 {
      NaturalSortKeepsOrder(s[1..], key);
      assert s == [s[0]] + s[1..];
    }
  }

  /** The sort key of `cursor.sort({price: ±1})`. */
  function PriceKey(l: ListingDoc): int {
    l.price
  }

  // ---------------------------------------------------------------------------
  // The listings query
  // ---------------------------------------------------------------------------

  /** The schema's `ListingsFilter` enum. */
  datatype ListingsFilter = PriceHighToLow | PriceLowToHigh | NumOfGuests1 | NumOfGuests2 | NumOfGuestsGt2

  /** The guest-count condition of a query. */
  datatype Guests = AnyGuests | GuestsEqual(count: int) | GuestsAbove(bound: int)

  /** The query document: an equality per place field that is set, and the
      guest-count condition. */
  datatype ListingsQuery = ListingsQuery(city: Option<string>, admin: Option<string>, country: Option<string>,
                                         guests: Guests)

  /** The stored listing satisfies the query document. */
  predicate Matches(q: ListingsQuery, l: ListingDoc) {
    && (q.city.Some? ==> l.city == q.city.value)
    && (q.admin.Some? ==> l.admin == q.admin.value)
    && (q.country.Some? ==> l.country == q.country.value)
    && match q.guests
       case AnyGuests => true
       case GuestsEqual(n) => l.numOfGuests == n
       case GuestsAbove(n) => l.numOfGuests > n
  }

  /** The guest-count condition a filter sets. */
  function GuestsFor(filter: Option<ListingsFilter>): (g: Guests)
    ensures g == GuestsEqual(1) <==> filter == Some(NumOfGuests1)
    ensures g == GuestsEqual(2) <==> filter == Some(NumOfGuests2)
    ensures g == GuestsAbove(2) <==> filter == Some(NumOfGuestsGt2)
    ensures g == AnyGuests <==> filter !in {Some(NumOfGuests1), Some(NumOfGuests2), Some(NumOfGuestsGt2)}
  {
    match filter
    case Some(NumOfGuests1) => GuestsEqual(1)
    case Some(NumOfGuests2) => GuestsEqual(2)
    case Some(NumOfGuestsGt2) => GuestsAbove(2)
    case _ => AnyGuests
  }

  /** The price order a filter asks for. */
  function OrderFor(filter: Option<ListingsFilter>): (order: SortOrder)
    ensures order == Descending <==> filter == Some(PriceHighToLow)
    ensures order == Ascending <==> filter == Some(PriceLowToHigh)
  {
    match filter
    case Some(PriceHighToLow) => Descending
    case Some(PriceLowToHigh) => Ascending
    case _ => Natural
  }

  /** The query for a geocoded location (None when no location was given)
      and a filter: each truthy part of the place constrains its field. */
  function QueryFor(place: Option<Address>, filter: Option<ListingsFilter>): (q: ListingsQuery)
    ensures q.city.Some? <==> place.Some? && Truthy(place.value.city)
    ensures q.admin.Some? <==> place.Some? && Truthy(place.value.admin)
    ensures q.country.Some? <==> place.Some? && Truthy(place.value.country)
    ensures q.city.Some? ==> q.city == place.value.city
    ensures q.admin.Some? ==> q.admin == place.value.admin
    ensures q.country.Some? ==> q.country == place.value.country
    ensures q.guests == GuestsFor(filter)
  {
    ListingsQuery(if place.Some? && Truthy(place.value.city) then place.value.city else None,
                  if place.Some? && Truthy(place.value.admin) then place.value.admin else None,
                  if place.Some? && Truthy(place.value.country) then place.value.country else None,
                  GuestsFor(filter))
  }

  /** `find(query)`: the listings that satisfy the query, in natural order. */
  function MatchingListings(docs: seq<ListingDoc>, q: ListingsQuery): (r: seq<ListingDoc>)
    ensures |r| <= |docs|
    ensures forall x :: multiset(r)[x] == if Matches(q, x) then multiset(docs)[x] else 0
    ensures forall i :: 0 <= i < |r| ==> r[i] in docs && Matches(q, r[i])
    ensures forall i :: 0 <= i < |docs| && Matches(q, docs[i]) ==> docs[i] in r
    ensures PicksOut(docs, Kept(docs, Matcher(q), 0), r) && Increasing(Kept(docs, Matcher(q), 0), 0, |docs|)
    ensures forall k :: 0 <= k < |docs| && Matches(q, docs[k]) ==> k in Kept(docs, Matcher(q), 0)
  {
    assert docs[0..] == docs;
    KeptOrdered(docs, Matcher(q), 0);
    KeptMeaning(docs, Matcher(q), 0);
    Filter(docs, Matcher(q))
  }

  /** The selector of `find(query)`. */
  function Matcher(q: ListingsQuery): ListingDoc -> bool {
    l => Matches(q, l)
  }

  /** The untrimmed region line: city and region each followed by a comma
      when present, then the country, separated by spaces. */
  function RegionText(city: Option<string>, admin: Option<string>, country: string): string {
    (if Truthy(city) then city.value + "," else "") + " " +
    (if Truthy(admin) then admin.value + "," else "") + " " + country
  }

  /** The region line shown for a location: the untrimmed line, trimmed. */
  function Region(city: Option<string>, admin: Option<string>, country: string): (r: string)
    ensures |r| <= |RegionText(city, admin, country)|
    ensures |r| > 0 ==> !IsJsWhitespace(r[0]) && !IsJsWhitespace(r[|r| - 1])
  {
    Trim(RegionText(city, admin, country))
  }

  /** The region line of clean place names, case by case: "city, region,
      country", "region, country", "country", and, with a city but no
      region, "city,  country" with two spaces. */
  lemma RegionForms(city: Option<string>, admin: Option<string>, country: string)
    requires Clean(country)
    requires Truthy(city) ==> Clean(city.value)
    requires Truthy(admin) ==> Clean(admin.value)
    ensures Truthy(city) && Truthy(admin) ==> Region(city, admin, country) == city.value + ", " + admin.value + ", " + country
    ensures Truthy(city) && !Truthy(admin) ==> Region(city, admin, country) == city.value + ",  " + country
    ensures !Truthy(city) && Truthy(admin) ==> Region(city, admin, country) == admin.value + ", " + country
    ensures !Truthy(city) && !Truthy(admin) ==> Region(city, admin, country) == country
  {
    var text := RegionText(city, admin, country);
    var last := country[|country| - 1];
    if Truthy(city) && Truthy(admin) {
      var joined := city.value + ", " + admin.value + ", " + country;
      assert text == [] + joined;
      assert joined[0] == city.value[0] && joined[|joined| - 1] == last;
      TrimAround([], joined);
    } else if Truthy(city) {
      var joined := city.value + ",  " + country;
      assert text == [] + joined;
      assert joined[0] == city.value[0] && joined[|joined| - 1] == last;
      TrimAround([], joined);
    } else if Truthy(admin) {
      var joined := admin.value + ", " + country;
      assert text == " " + joined;
      assert joined[0] == admin.value[0] && joined[|joined| - 1] == last;
      TrimAround(" ", joined);
    } else {
      assert text == "  " + country;
      TrimAround("  ", country);
    }
  }

  /** The listings page: the region line of the location (None without
      one), how many listings the query matches, and the requested page of
      them. */
  datatype ListingsData = ListingsData(region: Option<string>, total: int, result: seq<ListingDoc>)

  const ListingsPrefix := "Failed to query user listings: "
  const NoCountry := "No Country Found"

  /** The `listings` query. A location is geocoded (`response` is the
      geocoder's answer) and must yield a country; the query is built from
      the place and the filter, the matches are sorted by price when the
      filter asks, and the page is cut with skip and limit. `total` counts
      every match, as the driver's `count()` ignores skip and limit. */
  method Listings(db: Database, location: Option<string>, response: GeocoderResponse,
                  filter: Option<ListingsFilter>, limit: nat, page: int)
    returns (r: Result<ListingsData>)
    requires db.Valid()
    ensures !Truthy(location) ==> r.Ok? && r.value.region == None
    ensures Truthy(location) && Geocode(response).Err? ==> r == Err(Rethrow(ListingsPrefix, Geocode(response).error))
    ensures Truthy(location) && Geocode(response).Ok? && Geocode(response).value.country.None? ==>
      r == Err(Rethrow(ListingsPrefix, NoCountry))
    ensures r.Err? ==> Truthy(location)
    ensures r.Err? <==> Truthy(location) && (Geocode(response).Err? || !Truthy(Geocode(response).value.country))
    ensures r.Ok? ==>
      var place := if Truthy(location) then Some(Geocode(response).value) else None;
      var matches := MatchingListings(db.ListingsInOrder(), QueryFor(place, filter));
      && (place.Some? ==>
            place.value.country.Some? &&
            r.value.region == Some(Region(place.value.city, place.value.admin, place.value.country.value)))
      && r.value.total == |matches|
      && r.value.result == Page(SortByKey(matches, PriceKey, OrderFor(filter)), SkipFor(page, limit), limit)
  {
    var data := ListingsData(None, 0, []);
    var query := ListingsQuery(None, None, None, AnyGuests);
    if Truthy(location) {
      var geo := Geocode(response);
      if geo.Err? {
        return Err(Rethrow(ListingsPrefix, geo.error));
      }
      var a := geo.value;
      if Truthy(a.city) {
        query := query.(city := a.city);
      }
      if Truthy(a.admin) {
        query := query.(admin := a.admin);
      }
      if Truthy(a.country) {
        query := query.(country := a.country);
      } else {
        return Err(Rethrow(ListingsPrefix, NoCountry));
      }
      data := data.(region := Some(Region(a.city, a.admin, a.country.value)));
    }
    if filter == Some(NumOfGuests1) {
      query := query.(guests := GuestsEqual(1));
    }
    if filter == Some(NumOfGuests2) {
      query := query.(guests := GuestsEqual(2));
    }
    if filter == Some(NumOfGuestsGt2) {
      query := query.(guests := GuestsAbove(2));
    }
    ghost var place := if Truthy(location) then Some(Geocode(response).value) else None;
    assert query == QueryFor(place, filter);
    var cursor := MatchingListings(db.ListingsInOrder(), query);
    var total := |cursor|;
    if OrderFor(filter) == Natural {
      NaturalSortKeepsOrder(cursor, PriceKey);
    }
    if filter == Some(PriceHighToLow) {
      cursor := SortByKey(cursor, PriceKey, Descending);
    }
    if filter == Some(PriceLowToHigh) {
      cursor := SortByKey(cursor, PriceKey, Ascending);
    }
    cursor := Page(cursor, SkipFor(page, limit), limit);
    r := Ok(data.(total := total, result := cursor));
  }

  /** A page of a sorted sequence is sorted. */
  lemma PageKeepsOrder<T>(s: seq<T>, key: T -> int, order: SortOrder, skip: nat, limit: nat)
    requires SortedBy(s, key, order)
    ensures SortedBy(Page(s, skip, limit), key, order)
  {
    var r := Page(s, skip, limit);
    forall i, j | 0 <= i < j < |r| ensures InOrder(key(r[i]), key(r[j]), order) {
      assert r[i] == s[skip + i] && r[j] == s[skip + j];
    }
  }

  /** A page of a reordering of `s` holds only documents of `s`. */
  lemma PageOfPermutation<T>(s: seq<T>, sorted: seq<T>, skip: nat, limit: nat)
    requires multiset(sorted) == multiset(s)
    ensures forall i :: 0 <= i < |Page(sorted, skip, limit)| ==> Page(sorted, skip, limit)[i] in s
  {
    var r := Page(sorted, skip, limit);
    forall i | 0 <= i < |r| ensures r[i] in s {
      assert r[i] == sorted[skip + i];
      assert sorted[skip + i] in multiset(s);
    }
  }

  /** What a listings page holds: only matching listings, at most `limit`
      of them, in price order when a price filter is set. */
  lemma ListingsPageMeaning(docs: seq<ListingDoc>, q: ListingsQuery, filter: Option<ListingsFilter>,
                            limit: nat, page: int)
    ensures var result := Page(SortByKey(MatchingListings(docs, q), PriceKey, OrderFor(filter)),
                               SkipFor(page, limit), limit);
      && (forall i :: 0 <= i < |result| ==> result[i] in docs && Matches(q, result[i]))
      && (limit > 0 ==> |result| <= limit)
      && SortedBy(result, PriceKey, OrderFor(filter))
  {
    var matches := MatchingListings(docs, q);
    var sorted := SortByKey(matches, PriceKey, OrderFor(filter));
    var result := Page(sorted, SkipFor(page, limit), limit);
    PageKeepsOrder(sorted, PriceKey, OrderFor(filter), SkipFor(page, limit), limit);
    PageOfMatches(docs, q, matches, sorted, SkipFor(page, limit), limit);
  }

  /** A page of a reordering of matching listings holds only matching
      listings. */
  lemma PageOfMatches(docs: seq<ListingDoc>, q: ListingsQuery, matches: seq<ListingDoc>, sorted: seq<ListingDoc>,
                      skip: nat, limit: nat)
    requires forall i :: 0 <= i < |matches| ==> matches[i] in docs && Matches(q, matches[i])
    requires multiset(sorted) == multiset(matches)
    ensures var result := Page(sorted, skip, limit);
      forall i :: 0 <= i < |result| ==> result[i] in docs && Matches(q, result[i])
  {
    var result := Page(sorted, skip, limit);
    PageOfPermutation(matches, sorted, skip, limit);
    forall i | 0 <= i < |result| ensures result[i] in docs && Matches(q, result[i]) {
      var k :| 0 <= k < |matches| && matches[k] == result[i];
    }
  }

  /** The page of bookings a listing shows its host. */
  datatype BookingsData = BookingsData(total: int, result: seq<BookingDoc>)

  /** `find({_id: {$in: ids}})`: the bookings whose id is listed, in natural
      order. */
  function BookingsAmong(bookings: seq<BookingDoc>, ids: seq<string>): (r: seq<BookingDoc>)
    ensures |r| <= |bookings|
    ensures forall x :: multiset(r)[x] == if x.id in ids then multiset(bookings)[x] else 0
    ensures forall i :: 0 <= i < |r| ==> r[i] in bookings && r[i].id in ids
    ensures forall i :: 0 <= i < |bookings| && bookings[i].id in ids ==> bookings[i] in r
    ensures PicksOut(bookings, Kept(bookings, Listed(ids), 0), r) && Increasing(Kept(bookings, Listed(ids), 0), 0, |bookings|)
    ensures forall k :: 0 <= k < |bookings| && bookings[k].id in ids ==> k in Kept(bookings, Listed(ids), 0)
  {
    assert bookings[0..] == bookings;
    KeptOrdered(bookings, Listed(ids), 0);
    KeptMeaning(bookings, Listed(ids), 0);
    Filter(bookings, Listed(ids))
  }

  /** The selector of `find({_id: {$in: ids}})`. */
  function Listed(ids: seq<string>): BookingDoc -> bool {
    (b: BookingDoc) => b.id in ids
  }

  /** `Listing.bookings`: null unless the listing was marked authorized;
      otherwise the listing's bookings in natural order, paged, with their
      full count. `bookings` is the bookings collection in natural order. */
  function ListingBookings(listing: ListingDoc, bookings: seq<BookingDoc>, limit: nat, page: int): (r: Option<BookingsData>)
    ensures r.None? <==> !listing.authorized
    ensures r.Some? ==>
      && (forall i :: 0 <= i < |r.value.result| ==> r.value.result[i] in bookings &&
                                                    r.value.result[i].id in listing.bookings)
      && (limit > 0 ==> |r.value.result| <= limit)
      && r.value.total == |BookingsAmong(bookings, listing.bookings)|
      && r.value.result == Page(BookingsAmong(bookings, listing.bookings), SkipFor(page, limit), limit)
  {
    if !listing.authorized then None
    else
      var matches := BookingsAmong(bookings, listing.bookings);
      Some(BookingsData(|matches|, Page(matches, SkipFor(page, limit), limit)))
  }
}
