/** The viewer resolvers: logging in through Google or through the session
    cookie, logging in as the guest, logging out, the cookie's lifetime and
    the `Viewer.hasWallet` field. */
module ViewerResolvers {
  import opened Common
  import opened Calendar
  import opened JsStrings
  import opened Store

  // ---------------------------------------------------------------------------
  // The Google profile
  // ---------------------------------------------------------------------------

  datatype Source = Source(id: Option<string>)
  datatype Metadata = Metadata(source: Option<Source>)
  datatype Name = Name(displayName: Option<string>, metadata: Option<Metadata>)
  datatype Photo = Photo(url: Option<string>)
  datatype EmailAddress = EmailAddress(value: Option<string>)

  /** The person record Google returns; each list may be missing. */
  datatype Person = Person(names: Option<seq<Name>>, photos: Option<seq<Photo>>,
                           emailAddresses: Option<seq<EmailAddress>>)

  /** What `Google.login(code)` produced: a failure with its message, or the
      response, whose `user` may be missing. */
  datatype GoogleAnswer = GoogleFailed(message: string) | GoogleAnswered(user: Option<Person>)

  /** The four fields a login needs, all present and non-empty. */
  datatype Profile = Profile(id: string, name: string, avatar: string, email: string)

  const NoGoogleUser := "Google Login Error"
  const IncompleteProfile := "Google login error"

  /** The first entry of a list; a missing list and an empty one alike give
      nothing. */
  function First<T>(list: Option<seq<T>>): (first: Option<T>)
    ensures first.Some? <==> list.Some? && |list.value| > 0
    ensures first.Some? ==> first.value == list.value[0]
  {
    if list.Some? && |list.value| > 0 then Some(list.value[0]) else None
  }

  /** The Google id of a name entry, through its metadata's source. */
  function IdOf(name: Name): Option<string> {
    if name.metadata.Some? && name.metadata.value.source.Some? then name.metadata.value.source.value.id else None
  }

  /** The profile read from the first name, photo and email entries; it is
      rejected when the id, the name, the avatar or the email is missing or
      empty. */
  function ExtractProfile(user: Person): (r: Result<Profile>)
    ensures r.Ok? <==>
      && First(user.names).Some? && Truthy(IdOf(First(user.names).value))
      && Truthy(First(user.names).value.displayName)
      && First(user.photos).Some? && Truthy(First(user.photos).value.url)
      && First(user.emailAddresses).Some? && Truthy(First(user.emailAddresses).value.value)
    ensures r.Err? ==> r.error == IncompleteProfile
    ensures r.Ok? ==>
      && r.value.id == IdOf(user.names.value[0]).value
      && r.value.name == user.names.value[0].displayName.value
      && r.value.avatar == user.photos.value[0].url.value
      && r.value.email == user.emailAddresses.value[0].value.value
  {
    var name := First(user.names);
    var photo := First(user.photos);
    var email := First(user.emailAddresses);
    var userName := if name.Some? then name.value.displayName else None;
    var userId := if name.Some? then IdOf(name.value) else None;
    var userAvatar := if photo.Some? && Truthy(photo.value.url) then photo.value.url else None;
    var userEmail := if email.Some? && Truthy(email.value.value) then email.value.value else None;
    if !Truthy(userId) || !Truthy(userName) || !Truthy(userAvatar) || !Truthy(userEmail) then Err(IncompleteProfile)
    else Ok(Profile(userId.value, userName.value, userAvatar.value, userEmail.value))
  }

  /** An empty list reads like a missing one, and only the first entry of
      each list matters. */
  lemma ProfileFromFirstEntries(user: Person, other: Person)
    requires First(user.names) == First(other.names)
    requires First(user.photos) == First(other.photos)
    requires First(user.emailAddresses) == First(other.emailAddresses)
    ensures ExtractProfile(user) == ExtractProfile(other)
    ensures ExtractProfile(Person(Some([]), user.photos, user.emailAddresses)) ==
            ExtractProfile(Person(None, user.photos, user.emailAddresses))
  {
  }

  // ---------------------------------------------------------------------------
  // Cookies
  // ---------------------------------------------------------------------------

  /** What a resolver does to the signed `viewer` cookie. `maxAge` is None
      when the lifetime computes to NaN. */
  datatype CookieAction = KeepCookie | SetViewerCookie(id: string, maxAge: Option<int>) | ClearViewerCookie

  const DefaultExpiry := 30 * MillisPerDay

  /** The cookie lifetime in milliseconds as the TypeScript source computes
      it at each login: `+COOKIE_EXPIRY` days, or 30 days when the variable
      is unset or empty. */
  function CookieExpirySrc(env: Option<string>): (ms: Option<int>)
    ensures !Truthy(env) ==> ms == Some(DefaultExpiry)
    ensures Truthy(env) ==> (ms.Some? <==> NumberOf(env.value).Some?)
    ensures Truthy(env) && ms.Some? ==> ms.value == NumberOf(env.value).value * MillisPerDay
  {
    if !Truthy(env) then Some(DefaultExpiry)
    else
      var days := NumberOf(env.value);
      if days.Some? then Some(days.value * MillisPerDay) else None
  }

  /** The cookie lifetime as the compiled module computes it once at load:
      `parseInt(COOKIE_EXPIRY)` days, or 30 days when unset or empty. */
  function CookieExpiryBuild(env: Option<string>): (ms: Option<int>)
    ensures !Truthy(env) ==> ms == Some(DefaultExpiry)
    ensures Truthy(env) ==> (ms.Some? <==> ParseInt(env.value).Some?)
    ensures Truthy(env) && ms.Some? ==> ms.value == ParseInt(env.value).value * MillisPerDay
  {
    if !Truthy(env) then Some(DefaultExpiry)
    else
      var days := ParseInt(env.value);
      if days.Some? then Some(days.value * MillisPerDay) else None
  }

  /** The two computations agree when the variable is unset, empty or a
      plain run of decimal digits: that many days, in milliseconds. */
  lemma CookieExpiryAgrees(env: Option<string>)
    requires Truthy(env) ==> AllDigits(env.value, 10)
    ensures CookieExpirySrc(env) == CookieExpiryBuild(env)
    ensures Truthy(env) ==> CookieExpirySrc(env) == Some(DigitsValue(env.value, 10) * MillisPerDay)
  {
    if Truthy(env) {
      ParseIntOfDigits(env.value);
      NumberOfDigits(env.value);
    }
  }

  /** Trimming leaves "12abc" alone. */
  lemma TrimMixed()
    ensures TrimStart("12abc") == "12abc" && Trim("12abc") == "12abc"
  {
    var s := "12abc";
    assert !IsJsWhitespace(s[0]) && !IsJsWhitespace(s[|s| - 1]);
    assert [] + s == s;
    TrimAround([], s);
  }

  /** "12abc" neither starts nor ends with whitespace and has no sign. */
  lemma PlainMixed()
    ensures TrimStart("12abc") == "12abc" && Trim("12abc") == "12abc"
    ensures SplitSign("12abc") == (1, "12abc") && !HexPrefixed("12abc")
  {
    TrimMixed();
  }

  /** `parseInt` reads the digits at the start of "12abc". */
  lemma ParseIntOfMixed()
    ensures ParseInt("12abc") == Some(12)
  {
    PlainMixed();
    var s := "12abc";
    assert DigitValue(s[0], 10) == Some(1) && DigitValue(s[1], 10) == Some(2);
    assert DigitValue(s[2], 10).None?;
    var p := DigitPrefix(s, 10);
    assert p == "12";
    assert DigitsValue("12", 10) == 12;
  }

  /** `Number` finds "12abc" is not a number. */
  lemma NumberOfMixed()
    ensures NumberOf("12abc") == None
  {
    PlainMixed();
    var s := "12abc";
    assert DigitValue(s[2], 10).None? && DigitValue(s[1], 16).Some?;
    assert !AllDigits(s, 10);
  }

  /** They part on other strings: "12abc" is NaN to `Number` but 12 days to
      `parseInt`. */
  lemma CookieExpiryDiffers()
    ensures CookieExpirySrc(Some("12abc")) == None
    ensures CookieExpiryBuild(Some("12abc")) == Some(12 * MillisPerDay)
  {
    ParseIntOfMixed();
    NumberOfMixed();
  }

  // ---------------------------------------------------------------------------
  // The viewer
  // ---------------------------------------------------------------------------

  /** The Viewer object a login returns. */
  datatype Viewer = Viewer(id: Option<string>, token: Option<string>, avatar: Option<string>,
                           walletId: Option<string>, didRequest: bool)

  /** The answer when nobody is logged in: only `didRequest`. */
  const NoViewer := Viewer(None, None, None, None, true)

  /** The Viewer of a logged-in user. */
  function ViewerOf(u: User): (v: Viewer)
    ensures v.didRequest && v.id == Some(u.id) && v.token == u.token && v.walletId == u.walletId
    ensures v.avatar == Some(u.avatar)
  {
    Viewer(Some(u.id), u.token, Some(u.avatar), u.walletId, true)
  }

  /** `Viewer.hasWallet`: true when the wallet id is truthy, else undefined
      (None). */
  function HasWallet(v: Viewer): (r: Option<bool>)
    ensures r.Some? <==> Truthy(v.walletId)
    ensures r.Some? ==> r.value
  {
    if Truthy(v.walletId) then Some(true) else None
  }

  // ---------------------------------------------------------------------------
  // Logging in
  // ---------------------------------------------------------------------------

  /** The user document after a Google login of `p` with the fresh `token`:
      the stored user with name, avatar, contact and token overwritten, or a
      new user with no income, bookings or listings. */
  function Upserted(users: map<string, User>, p: Profile, token: string): (u: User)
    ensures u.name == p.name && u.avatar == p.avatar && u.contact == p.email && u.token == Some(token)
    ensures p.id in users ==>
      && u.id == users[p.id].id && u.walletId == users[p.id].walletId && u.income == users[p.id].income
      && u.bookings == users[p.id].bookings && u.listings == users[p.id].listings
    ensures p.id !in users ==>
      && u.id == p.id && u.walletId == None && u.income == 0 && u.bookings == [] && u.listings == []
  {
    if p.id in users
    then users[p.id].(name := p.name, avatar := p.avatar, contact := p.email, token := Some(token))
    else User(p.id, Some(token), p.name, p.avatar, p.email, None, 0, [], [])
  }

  /** Logging in twice with the same profile leaves what the second login
      alone would: income, bookings and listings survive, only the token
      changes. */
  lemma UpsertTwice(users: map<string, User>, p: Profile, first: string, second: string)
    ensures var once := users[p.id := Upserted(users, p, first)];
      Upserted(once, p, second) == Upserted(users, p, second)
  {
  }

  /** loginViaGoogle: the profile Google returns is upserted under its id
      with the fresh token, and the session cookie is set to that id with
      the lifetime `COOKIE_EXPIRY` (`env`) gives, read with unary `+`. A
      failed or incomplete answer writes nothing. */
  method LoginViaGoogle(db: Database, answer: GoogleAnswer, token: string, env: Option<string>)
    returns (r: Result<User>, action: CookieAction)
    requires db.Valid()
    modifies db
    ensures db.Valid()
    ensures answer.GoogleFailed? ==> r == Err(answer.message)
    ensures answer == GoogleAnswered(None) ==> r == Err(NoGoogleUser)
    ensures answer.GoogleAnswered? && answer.user.Some? && ExtractProfile(answer.user.value).Err? ==>
      r == Err(IncompleteProfile)
    ensures answer.GoogleAnswered? && answer.user.Some? && ExtractProfile(answer.user.value).Ok? ==> r.Ok?
    ensures r.Err? ==> db.users == old(db.users) && action == KeepCookie
    ensures r.Ok? ==>
      && answer.GoogleAnswered? && answer.user.Some? && ExtractProfile(answer.user.value).Ok?
      && var p := ExtractProfile(answer.user.value).value;
         && r.value == Upserted(old(db.users), p, token)
         && db.users == old(db.users)[p.id := r.value]
         && action == SetViewerCookie(p.id, CookieExpirySrc(env))
    ensures db.listings == old(db.listings) && db.listingOrder == old(db.listingOrder)
    ensures db.bookings == old(db.bookings) && db.bookingOrder == old(db.bookingOrder)
  {
    action := KeepCookie;
    if answer.GoogleFailed? {
      return Err(answer.message), action;
    }
    if answer.user.None? {
      return Err(NoGoogleUser), action;
    }
    var profile := ExtractProfile(answer.user.value);
    if profile.Err? {
      return Err(profile.error), action;
    }
    var p := profile.value;
    var viewer := Upserted(db.users, p, token);
    db.users := db.users[p.id := viewer];
    action := SetViewerCookie(p.id, CookieExpirySrc(env));
    r := Ok(viewer);
  }

  /** loginViaCookie: the user named by the cookie gets the fresh token;
      when there is none the cookie is cleared. */
  method LoginViaCookie(db: Database, cookie: Option<string>, token: string)
    returns (viewer: Option<User>, action: CookieAction)
    requires db.Valid()
    modifies db
    ensures db.Valid()
    ensures viewer.Some? <==> cookie.Some? && cookie.value in old(db.users)
    ensures viewer.Some? ==>
      && viewer.value == old(db.users)[cookie.value].(token := Some(token))
      && db.users == old(db.users)[cookie.value := viewer.value]
      && action == KeepCookie
    ensures viewer.None? ==> db.users == old(db.users) && action == ClearViewerCookie
    ensures db.listings == old(db.listings) && db.listingOrder == old(db.listingOrder)
    ensures db.bookings == old(db.bookings) && db.bookingOrder == old(db.bookingOrder)
  {
    if cookie.Some? && cookie.value in db.users {
      var u := db.users[cookie.value].(token := Some(token));
      db.users := db.users[cookie.value := u];
      return Some(u), KeepCookie;
    }
    return None, ClearViewerCookie;
  }

  const LoginPrefix := "Unable to login: "

  /** The `login` mutation. A truthy `code` logs in through Google (with
      `answer` as Google's reply), anything else through the cookie. The
      fresh `token` is what both paths store. Errors are wrapped as "Unable
      to login: Error: <message>" and write nothing. `env` is the
      `COOKIE_EXPIRY` setting. */
  method Login(db: Database, code: Option<string>, token: string, cookie: Option<string>,
               answer: GoogleAnswer, env: Option<string>)
    returns (r: Result<Viewer>, action: CookieAction)
    requires db.Valid()
    modifies db
    ensures db.Valid()
    ensures r.Err? ==> Truthy(code) && db.users == old(db.users) && action == KeepCookie
    ensures r.Ok? ==> r.value.didRequest
    ensures r.Ok? && r.value.id.Some? ==>
      && r.value.id.value in db.users
      && r.value.token == Some(token) && db.users[r.value.id.value].token == Some(token)
      && r.value == ViewerOf(db.users[r.value.id.value])
    ensures !Truthy(code) ==>
      && r.Ok?
      && (r.value.id.Some? <==> cookie.Some? && cookie.value in old(db.users))
      && (r.value.id.None? ==> r.value == NoViewer && action == ClearViewerCookie)
    ensures Truthy(code) && r.Ok? ==> r.value.id.Some? && action == SetViewerCookie(r.value.id.value, CookieExpirySrc(env))
    ensures Truthy(code) && answer.GoogleFailed? ==> r == Err(Rethrow(LoginPrefix, answer.message))
    ensures Truthy(code) && answer == GoogleAnswered(None) ==> r == Err(Rethrow(LoginPrefix, NoGoogleUser))
    ensures Truthy(code) && answer.GoogleAnswered? && answer.user.Some? && ExtractProfile(answer.user.value).Err? ==>
      r == Err(Rethrow(LoginPrefix, IncompleteProfile))
    ensures Truthy(code) && answer.GoogleAnswered? && answer.user.Some? && ExtractProfile(answer.user.value).Ok? ==>
      r.Ok?
    ensures Truthy(code) && r.Ok? ==>
      && answer.GoogleAnswered? && answer.user.Some? && ExtractProfile(answer.user.value).Ok?
      && var p := ExtractProfile(answer.user.value).value;
         && r.value.id == Some(p.id)
         && db.users == old(db.users)[p.id := Upserted(old(db.users), p, token)]
    ensures !Truthy(code) && r.value.id.Some? ==>
      && r.value.id == cookie && action == KeepCookie
      && db.users == old(db.users)[cookie.value := old(db.users)[cookie.value].(token := Some(token))]
    ensures !Truthy(code) && r.value.id.None? ==> db.users == old(db.users)
    ensures db.listings == old(db.listings) && db.listingOrder == old(db.listingOrder)
    ensures db.bookings == old(db.bookings) && db.bookingOrder == old(db.bookingOrder)
  {
    var viewer: Option<User>;
    if Truthy(code) {
      var google;
      google, action := LoginViaGoogle(db, answer, token, env);
      if google.Err? {
        return Err(Rethrow(LoginPrefix, google.error)), action;
      }
      viewer := Some(google.value);
      UpsertedKeyed(old(db.users), ExtractProfile(answer.user.value).value, token);
    } else {
      viewer, action := LoginViaCookie(db, cookie, token);
    }
    if viewer.None? {
      return Ok(NoViewer), action;
    }
    r := Ok(ViewerOf(viewer.value));
  }

  /** In a well-keyed collection the upserted user sits under the profile's
      id. */
  lemma UpsertedKeyed(users: map<string, User>, p: Profile, token: string)
    requires forall id :: id in users ==> users[id].id == id
    ensures Upserted(users, p, token).id == p.id
  {
  }

  /** The guest's fixed user id. */
  const GuestId := "5d378db94e84753160e08b55"

  /** `loginAsGuest` (compiled module only): the guest user's Viewer and a
      session cookie for the guest id, or only `didRequest` and no cookie
      when the guest user does not exist. The guest's token is not
      rotated. The cookie's lifetime is the compiled module's reading of
      `COOKIE_EXPIRY` (`env`). */
  function LoginAsGuest(users: map<string, User>, env: Option<string>): (r: (Viewer, CookieAction))
    ensures r.1 == SetViewerCookie(GuestId, CookieExpiryBuild(env)) <==> GuestId in users
    ensures GuestId !in users ==> r == (NoViewer, KeepCookie)
    ensures GuestId in users ==> r.0 == ViewerOf(users[GuestId])
  {
    if GuestId !in users then (NoViewer, KeepCookie)
    else (ViewerOf(users[GuestId]), SetViewerCookie(GuestId, CookieExpiryBuild(env)))
  }

  /** `logout`: the cookie is cleared and only `didRequest` comes back; the
      stored token is left as it is, so it takes no database. */
  function Logout(): (r: (Viewer, CookieAction))
    ensures r.0 == NoViewer
    ensures r.1 == ClearViewerCookie
  {
    (NoViewer, ClearViewerCookie)
  }
}
