/** The application as a state machine over the store: requests to the three
    routes and ticks of the cron job, applied one after another. */
module Service {

  import opened Common
  import opened UserModel
  import opened DayQuery
  import opened Routes
  import opened Cron

  datatype Event =
    | AddRequest(newEmail: Option<string>, latitude: Option<Coord>, longitude: Option<Coord>, capture: Capture)
    | UpdateRequest(email: string, latitude: Option<Coord>, longitude: Option<Coord>, capture: Capture)
    | QueryRequest(email: string, requested: Option<Timestamp>)
    | CronTick(captures: Captures)

  function Step(s: Store, ev: Event): Store {
    match ev
    case AddRequest(e, lat, lon, c) => Add(s, e, lat, lon, c).store
    case UpdateRequest(e, lat, lon, c) => UpdateLocation(s, e, lat, lon, c).store
    case QueryRequest(e, d) => WeatherOnDay(s, e, d).store
    case CronTick(cs) => Cycle(s, cs)
  }

  function Run(s: Store, evs: seq<Event>): Store
    decreases |evs|
  {
    if evs == [] then s else Run(Step(s, evs[0]), evs[1..])
  }

  /** Every event keeps the schema's constraints on the store, and never
      removes a user, changes an email or rewrites an existing reading. */
  lemma StepKeepsStore(s: Store, ev: Event)
    requires WellFormed(s)
    ensures WellFormed(Step(s, ev))
    ensures s.Keys <= Step(s, ev).Keys
    ensures forall e :: e in s ==> Step(s, ev)[e].email == s[e].email
    ensures forall e :: e in s ==> s[e].history <= Step(s, ev)[e].history
  {
    match ev
    case AddRequest(e, lat, lon, c) =>
    case UpdateRequest(e, lat, lon, c) =>
      var o := UpdateLocation(s, e, lat, lon, c);
      if o.response.Updated? {
        assert s[e].history <= o.store[e].history;
      }
    case QueryRequest(e, d) =>
    case CronTick(cs) =>
      var t := Cycle(s, cs);
      forall u | u in s
        ensures s[u].history <= t[u].history
      {
      }
  }

  /** Over any sequence of requests and cycles the store stays well formed
      and histories are append-only: each user present at the start is
      present at the end with the same email and with its earlier readings,
      unchanged and in place, as a prefix of its history. */
  lemma {:induction false} RunKeepsStore(s: Store, evs: seq<Event>)
    requires WellFormed(s)
    ensures WellFormed(Run(s, evs))
    ensures s.Keys <= Run(s, evs).Keys
    ensures forall e :: e in s ==> Run(s, evs)[e].email == s[e].email
    ensures forall e :: e in s ==> s[e].history <= Run(s, evs)[e].history
    decreases |evs|
  {
    if evs != [] {
      var s1 := Step(s, evs[0]);
      StepKeepsStore(s, evs[0]);
      RunKeepsStore(s1, evs[1..]);
      forall e | e in s
        ensures s[e].history <= Run(s, evs)[e].history
      {
        assert s[e].history <= s1[e].history;
      }
    }
  }

  /** The registration example: a new user whose registration succeeds and
      who then asks for the day of that registration gets exactly the one
      reading taken at registration. */
  lemma RegisterThenQuery(s: Store, email: string, lat: Coord, lon: Coord, c: Capture, requested: Timestamp)
    requires email != "" && email !in s && lat != 0 && lon != 0
    requires Day(requested) == Day(c.at)
    ensures var added := Add(s, Some(email), Some(lat), Some(lon), c);
            && Status(added.response) == 201
            && WeatherOnDay(added.store, email, Some(requested)).response
               == DayReadings(email, Day(c.at), [NewReading(c)])
  {
    var added := Add(s, Some(email), Some(lat), Some(lon), c);
    OnDayAppend([], NewReading(c), Day(c.at));
    assert [] + [NewReading(c)] == [NewReading(c)];
  }

  /** After a cycle, a day query answers what it answered before, followed by
      the cycle's reading when that reading falls on the requested day. */
  lemma QueryAfterCycle(s: Store, captures: Captures, email: string, requested: Timestamp)
    requires email in s
    ensures var before := WeatherOnDay(s, email, Some(requested)).response;
            var after := WeatherOnDay(Cycle(s, captures), email, Some(requested)).response;
            var x := NewReading(captures(email, s[email].location));
            after.readings == before.readings + (if Day(x.date) == Day(requested) then [x] else [])
  {
    var t := Cycle(s, captures);
    var x := NewReading(captures(email, s[email].location));
    assert t[email].history == s[email].history + [x];
    OnDayAppend(s[email].history, x, Day(requested));
  }

  /** After a successful location update, a day query answers what it
      answered before, followed by the new reading when that reading falls
      on the requested day. */
  lemma QueryAfterUpdate(s: Store, email: string, lat: Coord, lon: Coord, c: Capture, requested: Timestamp)
    requires email in s
    ensures var o := UpdateLocation(s, email, Some(lat), Some(lon), c);
            var before := WeatherOnDay(s, email, Some(requested)).response;
            var after := WeatherOnDay(o.store, email, Some(requested)).response;
            after.readings == before.readings + (if Day(c.at) == Day(requested) then [NewReading(c)] else [])
  {
    var o := UpdateLocation(s, email, Some(lat), Some(lon), c);
    assert o.store[email].history == s[email].history + [NewReading(c)];
    OnDayAppend(s[email].history, NewReading(c), Day(requested));
  }

  /** As written, registering a location on the equator is refused with 400,
      though every field is present. */
  lemma AddRejectsEquator(s: Store, c: Capture)
    ensures Add(s, Some("a@x.com"), Some(0), Some(20), c) == Outcome(BadRequest(AllFieldsRequired), s)
  {
  }

  /** With the presence test, the same registration succeeds for a new
      email, and the corrected route keeps the store well formed. */
  lemma AddIntendedAcceptsEquator(s: Store, c: Capture)
    requires WellFormed(s) && "a@x.com" !in s
    ensures Status(AddIntended(s, Some("a@x.com"), Some(0), Some(20), c).response) == 201
    ensures AddIntended(s, Some("a@x.com"), Some(0), Some(20), c).store["a@x.com"].location == Location(0, 20)
    ensures WellFormed(AddIntended(s, Some("a@x.com"), Some(0), Some(20), c).store)
  {
  }

  /** The corrected registration keeps the store's constraints for every
      input, as the handler as written does. */
  lemma AddIntendedKeepsStore(s: Store, email: Option<string>, lat: Option<Coord>, lon: Option<Coord>, c: Capture)
    requires WellFormed(s)
    ensures WellFormed(AddIntended(s, email, lat, lon, c).store)
    ensures s.Keys <= AddIntended(s, email, lat, lon, c).store.Keys
    ensures forall e :: e in s ==> AddIntended(s, email, lat, lon, c).store[e] == s[e]
  {
  }
}
