/** The shared helpers: the session lookup behind every authenticated
    resolver and the normalisation of geocoder answers. */
module Utils {
  import opened Common
  import opened Store

  /** authorize: the user whose `_id` is the signed `viewer` cookie and whose
      stored token equals the `X-CSRF-TOKEN` header. An absent header only
      matches a user that has no token, as a query on a missing field does;
      an absent cookie matches nobody, since every user has an `_id`. */
  function Authorize(users: map<string, User>, cookie: Option<string>, header: Option<string>): (viewer: Option<User>)
    ensures viewer.Some? <==> cookie.Some? && cookie.value in users && users[cookie.value].token == header
    ensures viewer.Some? ==> viewer.value == users[cookie.value]
  {
    if cookie.Some? && cookie.value in users && users[cookie.value].token == header
    then Some(users[cookie.value])
    else None
  }

  /** Exactly the user that both credentials name is found: a user is returned
      iff its id is the cookie and its token is the header, and nobody is
      found when either credential matches no user. */
  lemma AuthorizeMatchesBoth(users: map<string, User>, cookie: Option<string>, header: Option<string>, u: User)
    requires forall id :: id in users ==> users[id].id == id
    requires u in users.Values
    ensures Authorize(users, cookie, header) == Some(u) <==> (cookie == Some(u.id) && u.token == header)
  {
  }

  /** One geocoder entry; only the fields the model reads. */
  datatype Entry = Entry(country: Option<string>, state: Option<string>, city: Option<string>)

  /** The normalised address: each part null unless the entry had it non-empty. */
  datatype Address = Address(country: Option<string>, admin: Option<string>, city: Option<string>)

  const FullUsName := "United States of America"
  const ShortUsName := "United States"

  /** A truthy field, else null. */
  function Present(field: Option<string>): (r: Option<string>)
    ensures r.Some? <==> Truthy(field)
    ensures r.Some? ==> r == field
  {
    if Truthy(field) then field else None
  }

  /** parseAddress: the truthy country, state (as `admin`) and city of the
      entry, null for missing or empty ones and for a missing entry, with the
      country "United States of America" shortened to "United States". */
  function ParseAddress(data: Option<Entry>): (a: Address)
    ensures a.country.Some? <==> data.Some? && Truthy(data.value.country)
    ensures a.admin.Some? <==> data.Some? && Truthy(data.value.state)
    ensures a.city.Some? <==> data.Some? && Truthy(data.value.city)
    ensures a.admin.Some? ==> a.admin == data.value.state
    ensures a.city.Some? ==> a.city == data.value.city
    ensures a.country.Some? ==>
      a.country == if data.value.country == Some(FullUsName) then Some(ShortUsName) else data.value.country
  {
    var country := if data.Some? then Present(data.value.country) else None;
    var admin := if data.Some? then Present(data.value.state) else None;
    var city := if data.Some? then Present(data.value.city) else None;
    Address(if country == Some(FullUsName) then Some(ShortUsName) else country, admin, city)
  }

  /** Every part of a parsed address is non-empty, and the long name of the
      United States never survives parsing. */
  lemma ParseAddressNormal(data: Option<Entry>)
    ensures var a := ParseAddress(data);
      && Truthy(a.country) == a.country.Some?
      && Truthy(a.admin) == a.admin.Some?
      && Truthy(a.city) == a.city.Some?
      && a.country != Some(FullUsName)
  {
  }

  /** Parsing is idempotent: an address read back as an entry parses to itself. */
  lemma ParseAddressIdempotent(data: Option<Entry>)
    ensures var a := ParseAddress(data);
      ParseAddress(Some(Entry(a.country, a.admin, a.city))) == a
  {
  }

  /** What the geocoding service answered: a failure with its message, or its
      list of entries. */
  datatype GeocoderResponse = Failed(message: string) | Entries(entries: seq<Entry>)

  const GeocodePrefix := "Failed to geocode: "

  /** geocode: parses only the first entry (none when the list is empty);
      a failure is rethrown with the "Failed to geocode: " prefix. */
  function Geocode(response: GeocoderResponse): (r: Result<Address>)
    ensures response.Failed? <==> r.Err?
    ensures r.Err? ==> r.error == Rethrow(GeocodePrefix, response.message)
    ensures response.Entries? && |response.entries| == 0 ==> r == Ok(Address(None, None, None))
    ensures response.Entries? && |response.entries| > 0 ==> r == Ok(ParseAddress(Some(response.entries[0])))
  {
    match response
    case Failed(message) => Err(Rethrow(GeocodePrefix, message))
    case Entries(entries) => Ok(ParseAddress(if |entries| == 0 then None else Some(entries[0])))
  }

  /** Only the first entry matters: answers that agree on it (or are both
      empty) geocode alike, and an empty answer gives an all-null address. */
  lemma GeocodeFirstEntryOnly(a: seq<Entry>, b: seq<Entry>)
    requires (|a| == 0 && |b| == 0) || (|a| > 0 && |b| > 0 && a[0] == b[0])
    ensures Geocode(Entries(a)) == Geocode(Entries(b))
    ensures |a| == 0 ==> Geocode(Entries(a)) == Ok(Address(None, None, None))
  {
  }
}
