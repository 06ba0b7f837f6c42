/** The subscriber record and the store of records: one user per email, each
    with a location and an append-only list of readings. */
module UserModel {

  import opened Common
  import opened JsValues
  import opened WeatherClient

  /** A coordinate as received in a request body. Coordinates are opaque: an
      integer stands in for each finite number, and the only question the
      code ever asks of one is whether it is zero. */
  type Coord = int

  /** The `location` sub-document; both paths are required. */
  datatype Location = Location(latitude: Coord, longitude: Coord)

  /** One element of `weatherData` as the handlers push it:
      `{ date: new Date(), ...weatherData }`. A failed fetch leaves only the
      date. */
  datatype Reading = Reading(date: Timestamp, weather: Option<Weather>)

  datatype User = User(email: string, location: Location, history: seq<Reading>)

  /** The users collection, indexed by the unique email. */
  type Store = map<string, User>

  /** The schema's constraints on the collection: every record is filed under
      its own email, which is non-empty (a required string). Together with
      the map's keys this makes emails unique. */
  predicate WellFormed(s: Store) {
    forall e :: e in s ==> s[e].email == e && e != ""
  }

  /** No two records of a well-formed store share an email. */
  lemma EmailsUnique(s: Store, a: string, b: string)
    requires WellFormed(s)
    requires a in s && b in s && a != b
    ensures s[a].email != s[b].email
    ensures s[a].email != "" && s[b].email != ""
  {
  }

  /** One fetch as seen by a caller: the time `new Date()` gives right after
      it, and the provider's outcome. */
  datatype Capture = Capture(at: Timestamp, response: ProviderResponse)

  /** The reading a capture produces. A `null` from the normaliser still
      yields a reading, one carrying only its date. */
  function NewReading(c: Capture): (r: Reading)
    ensures r.date == c.at
    ensures c.response.RequestFailed? ==> r.weather == None
    ensures r.weather.Some? ==> c.response.Received? && Readable(c.response.data)
  {
    Reading(c.at, GetWeatherData(c.response))
  }

  /** Pushes one new reading onto a user's history; nothing else changes. */
  function Appended(u: User, c: Capture): (v: User)
    ensures v.email == u.email && v.location == u.location
    ensures |v.history| == |u.history| + 1
    ensures v.history[..|u.history|] == u.history
    ensures v.history[|u.history|] == NewReading(c)
  {
    u.(history := u.history + [NewReading(c)])
  }

  // ---------------------------------------------------------------------
  // The schema's view of a reading

  /** A plain object about to become a `weatherData` sub-document: an
      optional `date` and its other keys. */
  datatype PushedObject = PushedObject(date: Option<Timestamp>, fields: map<string, Js>)

  /** A `weatherData` sub-document restricted to the three paths the schema
      declares; an unset path reads as `undefined`. */
  datatype Entry = Entry(date: Timestamp, temperature: Js, condition: Js)

  function Field(fields: map<string, Js>, name: string): Js {
    if name in fields then fields[name] else Undefined
  }

  /** Casts an object to the declared reading shape. `date` falls back to the
      creation time when the object supplies none; `temperature` and
      `condition` are taken from the keys of the same name. */
  function Cast(p: PushedObject, createdAt: Timestamp): (e: Entry)
    ensures p.date.None? ==> e.date == createdAt
    ensures p.date.Some? ==> e.date == p.date.value
    ensures "condition" !in p.fields ==> e.condition == Undefined
    ensures "temperature" in p.fields ==> e.temperature == p.fields["temperature"]
  {
    Entry(if p.date.Some? then p.date.value else createdAt,
          Field(p.fields, "temperature"), Field(p.fields, "condition"))
  }

  /** The object the handlers and the cron job push, as written:
      `{ date: new Date(), ...weatherData }`. */
  function Pushed(r: Reading): (p: PushedObject)
    ensures p.date == Some(r.date)
    ensures r.weather.None? ==> p.fields == map[]
    ensures r.weather.Some? ==>
              && p.fields.Keys == {"temperature", "description", "humidity", "windSpeed"}
              && p.fields["temperature"] == r.weather.value.temperature
              && p.fields["description"] == r.weather.value.description
    ensures "condition" !in p.fields
  {
    PushedObject(Some(r.date), Spread(r.weather))
  }

  /** The object the schema evidently expects: the provider's description
      stored under the declared `condition` path. */
  function PushedIntended(r: Reading): (p: PushedObject)
    ensures p.date == Some(r.date)
    ensures r.weather.None? ==> p.fields == map[]
    ensures r.weather.Some? ==>
              && p.fields.Keys == {"temperature", "description", "humidity", "windSpeed", "condition"}
              && p.fields["condition"] == r.weather.value.description
              && p.fields["temperature"] == r.weather.value.temperature
  {
    var base := Spread(r.weather);
    PushedObject(Some(r.date),
                 if r.weather.Some? then base["condition" := r.weather.value.description] else base)
  }

  /** The reading a capture produces is the pushed object of that capture:
      dated with the capture time, with the normaliser's four keys when the
      fetch succeeded and no key besides the date when it gave `null`. */
  lemma CapturePushed(c: Capture)
    ensures Pushed(NewReading(c)).date == Some(c.at)
    ensures c.response.RequestFailed? ==> Pushed(NewReading(c)).fields == map[]
    ensures Pushed(NewReading(c)).fields != map[] <==> GetWeatherData(c.response).Some?
    ensures GetWeatherData(c.response).Some? ==>
              Pushed(NewReading(c)).fields["temperature"] == GetWeatherData(c.response).value.temperature
  {
    var r := NewReading(c);
    if r.weather.Some? {
      assert "temperature" in Pushed(r).fields;
    }
  }

  /** As written, no reading ever sets the declared `condition` path, since
      the pushed object names its description `description`. */
  lemma {:induction false} ConditionNeverStored(r: Reading, createdAt: Timestamp)
    ensures Cast(Pushed(r), createdAt).condition == Undefined
    ensures Cast(Pushed(r), createdAt).date == r.date
  {
    assert "condition" !in Spread(r.weather);
  }

  /** A concrete reading whose description is lost: a successful fetch that
      reports "clear sky" still stores no condition. */
  lemma DescriptionLostExample()
    ensures var r := Reading(0, Some(Weather(Num(20), Str("clear sky"), Num(40), Num(3))));
            && r.weather.value.description != Undefined
            && Cast(Pushed(r), 0).condition == Undefined
  {
    ConditionNeverStored(Reading(0, Some(Weather(Num(20), Str("clear sky"), Num(40), Num(3)))), 0);
  }

  /** With the description stored under `condition`, the schema's view keeps
      the temperature and the condition of every successful fetch. */
  lemma {:induction false} IntendedKeepsCondition(r: Reading, createdAt: Timestamp)
    ensures r.weather.Some? ==> Cast(PushedIntended(r), createdAt).condition == r.weather.value.description
    ensures r.weather.Some? ==> Cast(PushedIntended(r), createdAt).temperature == r.weather.value.temperature
    ensures r.weather.None? ==> Cast(PushedIntended(r), createdAt).condition == Undefined
    ensures Cast(PushedIntended(r), createdAt).date == r.date
  {
    if r.weather.Some? {
      assert "temperature" in Spread(r.weather);
    } else {
      assert Spread(r.weather) == map[];
    }
  }
}
