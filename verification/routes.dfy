/** The three user routes as pure operations on the store: each takes the
    store and the request and gives the response together with the store
    after the handler's writes. */
module Routes {

  import opened Common
  import opened UserModel
  import opened DayQuery

  const AllFieldsRequired: string := "All fields are required"
  const UserExists: string := "User already exists"

  /** The JSON body a handler sends, with its status code. */
  datatype Response =
    | Created(user: User)                                     // 201
    | Updated(user: User)                                     // 200
    | DayReadings(email: string, day: int, readings: seq<Reading>)  // 200
    | BadRequest(message: string)                             // 400
    | NotFound                                                // 404 'User not found'
    | ServerError                                             // 500 'Server error'

  function Status(r: Response): int {
    match r
    case Created(_) => 201
    case Updated(_) => 200
    case DayReadings(_, _, _) => 200
    case BadRequest(_) => 400
    case NotFound => 404
    case ServerError => 500
  }

  datatype Outcome = Outcome(response: Response, store: Store)

  /** `!email` is false: the email is present and not the empty string. */
  predicate TruthyText(v: Option<string>) {
    v.Some? && v.value != ""
  }

  /** `!x` is false for a number from a JSON body: present and not zero. */
  predicate TruthyCoord(v: Option<Coord>) {
    v.Some? && v.value != 0
  }

  /** The record a successful registration saves: the given location and a
      history of exactly the one reading fetched for it. */
  function Registered(email: string, loc: Location, c: Capture): User {
    User(email, loc, [NewReading(c)])
  }

  /** POST /add, as written. The falsy test rejects a missing or empty email
      and a missing or zero coordinate; a known email is refused; otherwise
      the user is saved with one reading, even when the fetch gave `null`. */
  function Add(s: Store, email: Option<string>, latitude: Option<Coord>, longitude: Option<Coord>,
               c: Capture): (o: Outcome)
    ensures !(TruthyText(email) && TruthyCoord(latitude) && TruthyCoord(longitude)) ==>
              o == Outcome(BadRequest(AllFieldsRequired), s)
    ensures TruthyText(email) && TruthyCoord(latitude) && TruthyCoord(longitude) && email.value in s ==>
              o == Outcome(BadRequest(UserExists), s)
    ensures o.response.Created? <==>
              TruthyText(email) && TruthyCoord(latitude) && TruthyCoord(longitude) && email.value !in s
    ensures o.response.Created? ==>
              && Status(o.response) == 201
              && o.store.Keys == s.Keys + {email.value}
              && |o.store| == |s| + 1
              && (forall e :: e in s ==> o.store[e] == s[e])
              && o.store[email.value].email == email.value
              && o.store[email.value].location == Location(latitude.value, longitude.value)
              && o.store[email.value].history == [NewReading(c)]
              && o.response.user == o.store[email.value]
    ensures !o.response.Created? ==> o.store == s && Status(o.response) == 400
  {
    if !(TruthyText(email) && TruthyCoord(latitude) && TruthyCoord(longitude)) then
      Outcome(BadRequest(AllFieldsRequired), s)
    else
      Register(s, email.value, Location(latitude.value, longitude.value), c)
  }

  /** POST /add with the presence test the route evidently intends: a
      coordinate of zero (the equator, the prime meridian) is accepted. */
  function AddIntended(s: Store, email: Option<string>, latitude: Option<Coord>, longitude: Option<Coord>,
                       c: Capture): (o: Outcome)
    ensures !(TruthyText(email) && latitude.Some? && longitude.Some?) ==>
              o == Outcome(BadRequest(AllFieldsRequired), s)
    ensures o.response.Created? <==>
              TruthyText(email) && latitude.Some? && longitude.Some? && email.value !in s
    ensures o.response.Created? ==>
              && o.store == s[email.value := Registered(email.value, Location(latitude.value, longitude.value), c)]
              && o.store.Keys == s.Keys + {email.value}
    ensures !o.response.Created? ==> o.store == s && Status(o.response) == 400
  {
    if !(TruthyText(email) && latitude.Some? && longitude.Some?) then
      Outcome(BadRequest(AllFieldsRequired), s)
    else
      Register(s, email.value, Location(latitude.value, longitude.value), c)
  }

  /** The part of POST /add after validation: the duplicate check, then the
      save of a new record. */
  function Register(s: Store, email: string, loc: Location, c: Capture): (o: Outcome)
    ensures email in s ==> o == Outcome(BadRequest(UserExists), s)
    ensures email !in s ==>
              && o.store.Keys == s.Keys + {email}
              && (forall e :: e in s ==> o.store[e] == s[e])
              && o.store[email].email == email
              && o.store[email].location == loc
              && o.store[email].history == [NewReading(c)]
              && o.response == Created(o.store[email])
  {
    if email in s then Outcome(BadRequest(UserExists), s)
    else
      var u := Registered(email, loc, c);
      Outcome(Created(u), s[email := u])
  }

  /** A coordinate pair passes the schema's required validators only when
      both values are present; zero is fine here. */
  function RequiredLocation(latitude: Option<Coord>, longitude: Option<Coord>): Option<Location> {
    if latitude.Some? && longitude.Some? then Some(Location(latitude.value, longitude.value)) else None
  }

  /** PUT /update-location/:email. An unknown email gives 404. A missing
      coordinate makes the save fail validation, which the catch turns into
      500 with nothing written. Otherwise the location is replaced and the
      response sent; the handler then fetches and appends one reading, which
      this model runs to completion before the next request. */
  function UpdateLocation(s: Store, email: string, latitude: Option<Coord>, longitude: Option<Coord>,
                          c: Capture): (o: Outcome)
    ensures email !in s ==> o == Outcome(NotFound, s)
    ensures email in s && (latitude.None? || longitude.None?) ==> o == Outcome(ServerError, s)
    ensures o.response.Updated? <==> email in s && latitude.Some? && longitude.Some?
    ensures o.response.Updated? ==>
              && Status(o.response) == 200
              && o.response.user.email == s[email].email
              && o.response.user.location == Location(latitude.value, longitude.value)
              && o.response.user.history == s[email].history
              && o.store.Keys == s.Keys
              && (forall e :: e in s && e != email ==> o.store[e] == s[e])
              && o.store[email].email == s[email].email
              && o.store[email].location == Location(latitude.value, longitude.value)
              && |o.store[email].history| == |s[email].history| + 1
              && o.store[email].history[..|s[email].history|] == s[email].history
              && o.store[email].history[|s[email].history|] == NewReading(c)
    ensures !o.response.Updated? ==> o.store == s
  {
    if email !in s then Outcome(NotFound, s)
    else
      match RequiredLocation(latitude, longitude)
      case None => Outcome(ServerError, s)
      case Some(loc) =>
        var moved := s[email].(location := loc);
        Outcome(Updated(moved), s[email := Appended(moved, c)])
  }

  /** GET /weather/:email/:date. `requested` is the time value of
      `new Date(date)`, `None` when the string does not parse, in which case
      `toISOString` throws and the catch answers 500. The store is only
      read. */
  function WeatherOnDay(s: Store, email: string, requested: Option<Timestamp>): (o: Outcome)
    ensures o.store == s
    ensures email !in s ==> o.response == NotFound
    ensures email in s && requested.None? ==> o.response == ServerError
    ensures email in s && requested.Some? ==>
              && o.response.DayReadings?
              && Status(o.response) == 200
              && o.response.email == email
              && o.response.day == Day(requested.value)
              && IsSubsequence(o.response.readings, s[email].history)
              && (forall i :: 0 <= i < |o.response.readings| ==>
                    Day(o.response.readings[i].date) == Day(requested.value))
              && (forall i :: 0 <= i < |s[email].history| && Day(s[email].history[i].date) == Day(requested.value) ==>
                    s[email].history[i] in o.response.readings)
              && o.response.readings == OnDay(s[email].history, Day(requested.value))
  {
    if email !in s then Outcome(NotFound, s)
    else if requested.None? then Outcome(ServerError, s)
    else
      var d := Day(requested.value);
      var r := OnDay(s[email].history, d);
      OnDaySubsequence(s[email].history, d);
      OnDayCounts(s[email].history, d);
      assert forall i :: 0 <= i < |s[email].history| ==> s[email].history[i] in multiset(s[email].history);
      Outcome(DayReadings(email, d, r), s)
  }
}
