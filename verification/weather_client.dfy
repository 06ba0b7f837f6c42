/** The weather lookup: one provider call whose outcome is an abstract input,
    normalised into a four-field record or `null`. */
module WeatherClient {

  import opened Common
  import opened JsValues

  /** What the HTTP client hands back: it throws for a network error or a
      non-success status, otherwise it yields the parsed body. */
  datatype ProviderResponse = RequestFailed | Received(data: Js)

  /** The normalised record `{ temperature, description, humidity, windSpeed }`.
      Its fields are copied without any check, so each may be any value,
      `undefined` included. */
  datatype Weather = Weather(temperature: Js, description: Js, humidity: Js, windSpeed: Js)

  const TempPath: seq<Key> := [Name("main"), Name("temp")]
  const DescriptionPath: seq<Key> := [Name("weather"), Index(0), Name("description")]
  const HumidityPath: seq<Key> := [Name("main"), Name("humidity")]
  const WindSpeedPath: seq<Key> := [Name("wind"), Name("speed")]

  /** True when every access chain the normaliser evaluates on the body
      completes without a TypeError. */
  predicate Readable(data: Js) {
    && Path(data, TempPath).Some?
    && Path(data, DescriptionPath).Some?
    && Path(data, HumidityPath).Some?
    && Path(data, WindSpeedPath).Some?
  }

  /** Normalises a provider outcome. A request error and any TypeError while
      reading the body both end in the catch block and give `null`; nothing
      is raised to the caller. */
  function GetWeatherData(resp: ProviderResponse): (w: Option<Weather>)
    ensures resp.RequestFailed? ==> w == None
    ensures resp.Received? ==> (w.Some? <==> Readable(resp.data))
    ensures w.Some? ==>
      && w.value.temperature == Path(resp.data, TempPath).value
      && w.value.description == Path(resp.data, DescriptionPath).value
      && w.value.humidity == Path(resp.data, HumidityPath).value
      && w.value.windSpeed == Path(resp.data, WindSpeedPath).value
    ensures resp.Received? && resp.data.Obj? && "main" !in resp.data.fields ==> w == None
    ensures (resp.Received? && resp.data.Obj? && "weather" in resp.data.fields
             && resp.data.fields["weather"] == Arr([])) ==> w == None
  {
    match resp
    case RequestFailed => None
    case Received(data) =>
      if Nullish(data) then None
      else
        var main := Lookup(data, Name("main"));
        if Nullish(main) then None
        else
          var list := Lookup(data, Name("weather"));
          if Nullish(list) then None
          else
            var first := Lookup(list, Index(0));
            if Nullish(first) then None
            else
              var wind := Lookup(data, Name("wind"));
              if Nullish(wind) then None
              else
                Some(Weather(Lookup(main, Name("temp")), Lookup(first, Name("description")),
                             Lookup(main, Name("humidity")), Lookup(wind, Name("speed"))))
  }

  /** The record as a JavaScript object: exactly the four keys. */
  function AsObject(w: Weather): (o: map<string, Js>)
    ensures o.Keys == {"temperature", "description", "humidity", "windSpeed"}
    ensures o["temperature"] == w.temperature && o["description"] == w.description
    ensures o["humidity"] == w.humidity && o["windSpeed"] == w.windSpeed
  {
    map["temperature" := w.temperature, "description" := w.description,
        "humidity" := w.humidity, "windSpeed" := w.windSpeed]
  }

  /** The keys that `{ ...weatherData }` contributes: none for `null`. */
  function Spread(w: Option<Weather>): map<string, Js>
  {
    match w
    case None => map[]
    case Some(x) => AsObject(x)
  }
}
