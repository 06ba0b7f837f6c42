# Weather subscriber store — a Dafny model

This project models the core of a small weather-notification backend. Users register an
email and a location. A weather reading is fetched for the location and appended to the
user's history. Users can move their location and ask for the readings of one calendar day.
A cron job appends a fresh reading to every user on each tick.

The model is functional. The users collection is an immutable `map<string, User>` keyed by
email. Every route handler is a pure function from the store and the request to a response
and the store after the handler's writes. The cron body is one function over the whole
store, with a loop-based method shown equal to it.

Modules, leaves first:

- `Common` (common.dfy): `Option`, millisecond timestamps, the UTC day of a timestamp.
- `JsValues` (js_values.dfy): JSON values plus `undefined`, property access, and access chains that throw on `null`/`undefined`.
- `WeatherClient` (weather_client.dfy): the provider outcome and its normalisation into a four-field record or `null` (`utils/weather.js`).
- `UserModel` (user_model.dfy): location, reading, user, store, the schema constraints, and the schema's view of a reading (`models/User.js`).
- `DayQuery` (day_query.dfy): the day filter of the readings query.
- `Routes` (routes.dfy): `POST /add`, `PUT /update-location/:email`, `GET /weather/:email/:date` (`routes/userRoutes.js`).
- `Cron` (cron.dfy): the body of the scheduled job (`server.js`).
- `Service` (service.dfy): requests and cron ticks applied in sequence, with the store invariants over any run.

Abstractions:

- Inputs the model cannot compute become parameters. The provider's answer to a fetch and the clock reading `new Date()` are a `Capture`. The cron job receives one capture per user, as a function of that user's email and location. The time value of `new Date(date)` in the day query is an `Option<Timestamp>`, where `None` means the string did not parse.
- Coordinates and the provider's numbers are opaque. An integer stands in for each one, because the code never computes with them. The only question asked of a coordinate is whether it is zero, in the falsy test of `/add`.
- Timestamps are integers of milliseconds. `Day(t) = t / 86400000` is the UTC day, which is what comparing the date parts of `toISOString()` tests. Dafny's division rounds down for a positive divisor, so a requested date before 1970 also gets the right day.
- The body fields of `/add` are an optional string and two optional coordinates. `None` stands for a missing field or JSON `null`.
- A stored `Location` always has both coordinates, so the schema's two required paths hold by construction. A request that would leave one unset is stopped before any write: by the falsy test in `/add`, or by the failing save in `update-location`.
- `Service.Run` applies the handlers as written, including `Routes.Add`. The corrected `Routes.AddIntended` is proved separately to keep the store well formed.

The model follows the code in these places:

- A registration whose fetch fails still stores one reading. The reading carries only its date, because `{ date, ...null }` adds no keys. The history is not left empty.
- A failed fetch is `null`, not a typed failure with a cause.
- A successful fetch copies `main.temp`, `weather[0].description`, `main.humidity` and `wind.speed` unchecked. Each may be `undefined`, for example when `main` is `{}`.
- The code has no overlap skipping, no concurrency limit, no per-user failure kinds and no cycle report, so none is modelled.
- `update-location` with a missing coordinate fails the schema's required validators on save. The catch then answers 500, and nothing is written.

## Model

| member | source | states |
|---|---|---|
| Common.Day | routes/userRoutes.js:90-92 | The day of a time value is the unique `d` with `d*86400000 <= t < (d+1)*86400000`, the UTC calendar day that the ISO date part names |
| WeatherClient.GetWeatherData | utils/weather.js:5-22 | A request error gives `null`. A received body gives a record exactly when the chains `main.temp`, `weather[0].description`, `main.humidity` and `wind.speed` evaluate without a TypeError. The four fields are the values of those chains. A body without `main`, or with an empty `weather` array, gives `null` |
| WeatherClient.AsObject | utils/weather.js:12-17 | A successful result has exactly the keys temperature, description, humidity and windSpeed, holding the record's values |
| UserModel.EmailsUnique | models/User.js:4 | In a well-formed store, distinct records have distinct, non-empty emails |
| UserModel.NewReading | server.js:33-36 | The pushed reading is dated with the capture time. A failed request still produces a reading, with no weather fields. Weather fields are present only when the body was readable |
| UserModel.Appended | server.js:36 | Pushing a reading keeps email and location. It lengthens the history by one, keeps the earlier readings as a prefix, and puts the new reading last |
| UserModel.Cast | models/User.js:9-15 | The schema's reading shape has only date, temperature and condition. The date defaults to the creation time when none is supplied. An absent `condition` key leaves condition undefined |
| UserModel.Pushed | server.js:36 | The pushed object `{ date: new Date(), ...weatherData }` carries the reading's date. A `null` fetch adds no other key. A successful fetch adds exactly temperature, description, humidity and windSpeed, and never a `condition` key |
| UserModel.PushedIntended | models/User.js:12-13 | The corrected object is dated the same way. After a successful fetch it also carries `condition`, holding the description |
| UserModel.CapturePushed | utils/weather.js:20 | The reading built from a capture is the pushed object of that capture. It is dated with the capture time and has no key besides the date exactly when the normaliser gave `null`. A request error gives such a date-only object |
| UserModel.ConditionNeverStored | models/User.js:13 | For every reading the handlers push, the declared `condition` path stays unset, while the date is kept |
| UserModel.DescriptionLostExample | models/User.js:13 | A fetch reporting "clear sky" still stores no condition |
| UserModel.IntendedKeepsCondition | models/User.js:12-13 | With the description pushed under `condition`, the schema's view keeps the condition and the temperature of every successful fetch |
| DayQuery.OnDay | routes/userRoutes.js:91-93 | Every reading the filter returns falls on the requested day, and the result is never longer than the history |
| DayQuery.OnDaySubsequence | routes/userRoutes.js:91-93 | The filter result is an order-preserving subsequence of the history |
| DayQuery.OnDayCounts | routes/userRoutes.js:91-93 | Each reading of the requested day appears in the result exactly as often as in the history, and no other reading appears |
| DayQuery.OnDayUnique | routes/userRoutes.js:91-93 | Any order-preserving subsequence with only that day's readings, each as often as in the history, equals the filter result |
| DayQuery.OnDayConcat | routes/userRoutes.js:91-93 | Filtering a concatenation equals concatenating the filtered parts |
| DayQuery.OnDayAppend | routes/userRoutes.js:91-93 | Appending a reading changes the filter result only for its own day, by adding it at the end |
| DayQuery.OnDayEmpty | routes/userRoutes.js:91-95 | The result is empty exactly when no reading of the history falls on that day |
| Routes.Add | routes/userRoutes.js:17-50 | A falsy email, latitude or longitude (missing, empty, zero) gives 400 "All fields are required" with the store unchanged. A known email gives 400 "User already exists" with the store unchanged. Otherwise 201, exactly one new key, other users untouched, the given location and a history of exactly one reading |
| Routes.Register | routes/userRoutes.js:27-43 | A duplicate email is refused with the store unchanged. A new email adds exactly one key, leaves every other user unchanged, and stores the given location with a one-reading history. The response carries the stored record |
| Routes.AddIntended | routes/userRoutes.js:22-24 | With a presence test, a missing field gives 400, and a present zero coordinate is accepted when the email is new |
| Routes.UpdateLocation | routes/userRoutes.js:53-78 | An unknown email gives 404 and a missing coordinate gives 500, both with no mutation. Otherwise 200 with the moved user, only that user's location replaced, its email kept, other users untouched, and exactly one reading appended after the earlier ones |
| Routes.WeatherOnDay | routes/userRoutes.js:81-99 | The store is never changed. An unknown email gives 404, and an unparseable date gives 500. Otherwise 200 with the requested day and an order-preserving subsequence of the history that holds only that day's readings and every one of them. The readings are exactly the day filter's result, so `DayQuery.OnDayCounts` and `DayQuery.OnDayUnique` fix their multiplicity |
| Cron.Cycle | server.js:26-47 | A cycle keeps the set of users and every email and location. Each history grows by exactly one reading, at the end, with earlier readings unchanged. The new reading comes from that user's own location and capture |
| Cron.RunCycle | server.js:31-41 | Visiting the users one at a time, in any order, leaves each user with exactly one reading appended and no user added or removed |
| Cron.RunCycleAgrees | server.js:31-41 | The visiting loop's result equals the cycle function |
| Cron.CycleIsolation | server.js:31-41 | A user's result depends only on its own record and its own capture, never on other users |
| Cron.CyclePreservesWellFormed | server.js:28-41 | A cycle keeps every record under its own non-empty email and creates or deletes no user |
| Cron.CyclesKeepUsers | server.js:26-47 | After N cycles the store holds exactly the same users |
| Cron.CyclesAppendOnePerRound | server.js:26-47 | After N cycles a user has the same email and location, and its history is the old history followed by exactly N readings |
| Service.StepKeepsStore | server.js:19-47 | Every route request and every cron tick keeps the store well formed. None removes a user, changes an email or alters an existing reading |
| Service.RunKeepsStore | server.js:19-47 | Over any sequence of requests and ticks, the store stays well formed and every history is append-only, with earlier readings kept as a prefix |
| Service.RegisterThenQuery | routes/userRoutes.js:33-95 | After a successful registration, querying the registration day returns exactly the one reading taken at registration |
| Service.QueryAfterCycle | server.js:36 | After a cycle, a day query returns its earlier answer, plus the cycle's reading when that reading falls on the requested day |
| Service.QueryAfterUpdate | routes/userRoutes.js:69-71 | After a location update, a day query returns its earlier answer, plus the new reading when it falls on the requested day |
| Service.AddRejectsEquator | routes/userRoutes.js:22-24 | As written, a registration at latitude 0 is refused with 400 even though every field is present |
| Service.AddIntendedKeepsStore | routes/userRoutes.js:22-43 | The corrected registration keeps the store well formed and leaves every existing user unchanged |
| Service.AddIntendedAcceptsEquator | routes/userRoutes.js:22-24 | With the presence test, the same registration is created with 201 at location (0, 20), and the store stays well formed |

## Findings

| source | as written | input that shows it | evidently intended | confidence | as-written member | corrected member |
|---|---|---|---|---|---|---|
| routes/userRoutes.js:22-24 | `!latitude` and `!longitude` also reject the number 0 | `POST /add` with email "a@x.com", latitude 0, longitude 20 | reject only missing coordinates; latitude 0 is the equator, a valid location | medium, not executed | Service.AddRejectsEquator (of Routes.Add) | Service.AddIntendedAcceptsEquator (of Routes.AddIntended) |
| models/User.js:13 | the schema declares `condition`, but the pushed readings name the description `description`, so `condition` is never set | any successful fetch, e.g. description "clear sky" | store the provider's description under `condition` | medium, not executed | UserModel.DescriptionLostExample (of UserModel.Pushed) | UserModel.IntendedKeepsCondition (of UserModel.PushedIntended) |

## Left out

- Express routing, body parsing and response sending: responses are a datatype with the status codes 201, 200, 400, 404 and 500.
- MongoDB persistence, `connectDB` and database errors: a failing `findOne`, `find` or `save` is not modelled. In the routes, such a failure before the response is caught and gives 500. In the cron job, only a failing `User.find()` reaches the job's catch and is logged. A failing `user.save()` inside a `forEach` callback escapes it as an unhandled promise rejection.
- Mongoose casting of request values: emails that are not strings and coordinates that are not numbers are outside the model's input types. This also covers query operators passed as an email.
- Mongoose strict mode, which drops undeclared keys on save: the store keeps readings as pushed. `UserModel.Cast` gives only the schema's view of them.
- The HTTP call to the provider and the URL and API-key construction: the outcome is an abstract `ProviderResponse`.
- Sending e-mail (`sendWeatherEmail`, `sendWeatherReport`) and the report text. For each user, mail is sent only after that user's store write. The failures it causes are left out:
  - In the routes, `generateWeatherReportText` reads `weatherData.main.temp` from an already-flattened record and always throws after the 201/200 response. The catch's own `res.status(500)` then throws because the headers were already sent, so the handler's promise rejects unhandled.
  - In the cron job, `sendWeatherReport(user.email, null)` throws on `weatherData.temperature` after a failed fetch. This also surfaces as an unhandled rejection.
- Cron.Cycle: assumes that an unhandled promise rejection does not end the process. Under a runtime that exits on one, one user's failed fetch or failed save can stop the process mid-cycle. Users whose appends were still pending would then get no reading, so "every user gains exactly one reading" holds only for a cycle that runs to completion.
- Cron.CycleIsolation: under the same assumption, each user's result depends only on its own record and capture. A rejection that ends the process would let one user's failure cancel other users' appends.
- The cron expression, its timing, `dotenv` and `app.listen`.
- Concurrency: the `forEach(async ...)` callbacks and the work `update-location` does after responding are run to completion, one after another. Races between a location update and a cron tick on the same user are not modelled.
- Floating-point coordinates and weather values, date-string parsing and time zones: these are covered by the integer abstractions above.
- UserModel.Cast: copies `temperature` without the schema's cast to Number. A value the cast refuses, such as a non-numeric string or an object, would make the save fail instead.
- Routes.Add: assumes the fetched temperature passes the schema's Number cast. Otherwise `user.save()` fails, and the source answers 500 and stores nothing, while the model answers 201.
- Routes.UpdateLocation: assumes the same. Otherwise the first save has already stored the new location, and the second save, which appends the reading, fails. The model always appends.
- Cron.CyclesAppendOnePerRound: rests on the same two assumptions as `Cron.Cycle`: a temperature that casts to Number and a process that survives unhandled rejections.
