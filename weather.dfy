/** The response handling of `get_weather`: HTTP status classification and the
    extraction of the simplified weather record from the decoded JSON body. */
module Weather {
  import opened Wrappers

  /** An entry of the JSON `weather` list; only its `description` key is read. */
  datatype Condition = Condition(description: Option<string>)

  /** The JSON `main` object. */
  datatype MainBlock = MainBlock(temp: Option<real>, feelsLike: Option<real>, humidity: Option<int>)

  /** The JSON `sys` object. */
  datatype SysBlock = SysBlock(country: Option<string>)

  /** The JSON `wind` object. */
  datatype WindBlock = WindBlock(speed: Option<real>)

  /** The decoded response body: every key the client reads, `None` when the key is absent. */
  datatype Body = Body(
    name: Option<string>,
    sys: Option<SysBlock>,
    weather: Option<seq<Condition>>,
    wind: Option<WindBlock>,
    main: Option<MainBlock>)

  /** What the HTTP request for one city brought back. */
  datatype Fetch = NetworkFailure(cause: string) | Reply(status: int, text: string, body: Body)

  /** A key whose absence makes the body unusable, in the order the client reads them. */
  datatype Field = MainKey | DescriptionKey | TempKey | FeelsLikeKey | HumidityKey

  /** The failures `get_weather` reports as a `WeatherError`. */
  datatype Error =
    | Network(cause: string)
    | CityNotFound(city: string)
    | ApiStatus(status: int, text: string)
    | MalformedResponse(missing: Field)

  /** The simplified record; temperatures, humidity and wind speed are passed through unchanged. */
  datatype Record = Record(
    city: string,
    country: string,
    temp: real,
    feelsLike: real,
    description: string,
    humidity: int,
    windSpeed: real)

  const NoDescription := "N/A"
  const NoWind: real := 0.0

  /** The position at which the extraction reads each required key. */
  function ReadOrder(f: Field): nat {
    match f
    case MainKey => 0
    case DescriptionKey => 1
    case TempKey => 2
    case FeelsLikeKey => 3
    case HumidityKey => 4
  }

  /** `data.get("weather", [])`: an absent list reads as empty. */
  function Conditions(body: Body): seq<Condition> {
    body.weather.GetOr([])
  }

  /** Reading key `f` of `body` fails. */
  predicate Missing(body: Body, f: Field) {
    match f
    case MainKey => body.main.None?
    case DescriptionKey => |Conditions(body)| > 0 && Conditions(body)[0].description.None?
    case TempKey => body.main.None? || body.main.value.temp.None?
    case FeelsLikeKey => body.main.None? || body.main.value.feelsLike.None?
    case HumidityKey => body.main.None? || body.main.value.humidity.None?
  }

  /** Every key the record needs can be read. */
  predicate Complete(body: Body) {
    forall f: Field :: !Missing(body, f)
  }

  /** A body is complete once each of the five required keys can be read. */
  lemma CompleteByKeys(body: Body)
    requires !Missing(body, MainKey) && !Missing(body, DescriptionKey) && !Missing(body, TempKey)
    requires !Missing(body, FeelsLikeKey) && !Missing(body, HumidityKey)
    ensures Complete(body)
  {
    forall f: Field ensures !Missing(body, f) {
      match f
      case MainKey =>
      case DescriptionKey =>
      case TempKey =>
      case FeelsLikeKey =>
      case HumidityKey =>
    }
  }

  /** The simplified record built from a body whose required keys are all present, with the
      defaults for absent optional keys. */
  function Simplify(requested: string, body: Body): (rec: Record)
    requires Complete(body)
    ensures body.main.Some?
    ensures body.main.value.temp == Some(rec.temp)
    ensures body.main.value.feelsLike == Some(rec.feelsLike)
    ensures body.main.value.humidity == Some(rec.humidity)
    ensures rec.city == if body.name.Some? then body.name.value else requested
    ensures rec.country == if body.sys.Some? && body.sys.value.country.Some? then body.sys.value.country.value else ""
    ensures |Conditions(body)| > 0 ==> Conditions(body)[0].description == Some(rec.description)
    ensures |Conditions(body)| == 0 ==> rec.description == NoDescription
    ensures rec.windSpeed == if body.wind.Some? && body.wind.value.speed.Some? then body.wind.value.speed.value else NoWind
  {
    assert !Missing(body, MainKey) && !Missing(body, DescriptionKey) && !Missing(body, TempKey);
    assert !Missing(body, FeelsLikeKey) && !Missing(body, HumidityKey);
    var m := body.main.value;
    var conditions := Conditions(body);
    Record(
      body.name.GetOr(requested),
      body.sys.GetOr(SysBlock(None)).country.GetOr(""),
      m.temp.value,
      m.feelsLike.value,
      if |conditions| > 0 then conditions[0].description.value else NoDescription,
      m.humidity.value,
      body.wind.GetOr(WindBlock(None)).speed.GetOr(NoWind))
  }

  /** The status checks and field extraction of `get_weather` for a reply to the request for `requested`. */
  function Normalize(requested: string, status: int, text: string, body: Body): (r: Result<Record, Error>)
    ensures status == 404 ==> r == Err(CityNotFound(requested))
    ensures status != 404 && status != 200 ==> r == Err(ApiStatus(status, text))
    ensures r.Ok? <==> status == 200 && Complete(body)
    ensures r.Ok? ==>
      && body.main.Some?
      && body.main.value.temp == Some(r.value.temp)
      && body.main.value.feelsLike == Some(r.value.feelsLike)
      && body.main.value.humidity == Some(r.value.humidity)
    ensures r.Ok? && body.name.Some? ==> r.value.city == body.name.value
    ensures r.Ok? && body.sys.Some? && body.sys.value.country.Some? ==> r.value.country == body.sys.value.country.value
    ensures r.Ok? && |Conditions(body)| > 0 ==> Conditions(body)[0].description == Some(r.value.description)
    ensures r.Ok? && body.wind.Some? && body.wind.value.speed.Some? ==> r.value.windSpeed == body.wind.value.speed.value
    ensures status == 200 && r.Err? ==>
      && r.error.MalformedResponse?
      && Missing(body, r.error.missing)
      && forall f: Field :: ReadOrder(f) < ReadOrder(r.error.missing) ==> !Missing(body, f)
  {
    if status == 404 then Err(CityNotFound(requested))
    else if status != 200 then Err(ApiStatus(status, text))
    else if body.main.None? then assert Missing(body, MainKey); Err(MalformedResponse(MainKey))
    else
      var main := body.main.value;
      var conditions := Conditions(body);
      if |conditions| > 0 && conditions[0].description.None? then
        assert Missing(body, DescriptionKey); Err(MalformedResponse(DescriptionKey))
      else if main.temp.None? then assert Missing(body, TempKey); Err(MalformedResponse(TempKey))
      else if main.feelsLike.None? then assert Missing(body, FeelsLikeKey); Err(MalformedResponse(FeelsLikeKey))
      else if main.humidity.None? then assert Missing(body, HumidityKey); Err(MalformedResponse(HumidityKey))
      else
        CompleteByKeys(body);
        Ok(Simplify(requested, body))
  }

  /** `get_weather` once the request has been made: a network failure, or the reply normalised. */
  function GetWeather(city: string, fetch: Fetch): (r: Result<Record, Error>)
    ensures fetch.NetworkFailure? ==> r == Err(Network(fetch.cause))
    ensures fetch.Reply? ==> r == Normalize(city, fetch.status, fetch.text, fetch.body)
    ensures r.Ok? ==> fetch.Reply? && fetch.status == 200
  {
    match fetch
    case NetworkFailure(cause) => Err(Network(cause))
    case Reply(status, text, body) => Normalize(city, status, text, body)
  }

  /** A body that carries every field of `rec`, as the service sends it. */
  function Encode(rec: Record): (body: Body)
    ensures Complete(body)
  {
    Body(
      Some(rec.city),
      Some(SysBlock(Some(rec.country))),
      Some([Condition(Some(rec.description))]),
      Some(WindBlock(Some(rec.windSpeed))),
      Some(MainBlock(Some(rec.temp), Some(rec.feelsLike), Some(rec.humidity))))
  }

  /** Normalisation loses nothing: a full reply for any record gives back that record. */
  lemma NormalizeEncode(requested: string, text: string, rec: Record)
    ensures Normalize(requested, 200, text, Encode(rec)) == Ok(rec)
  {
  }

  /** The status is classified before the body is looked at: any error status gives the same result for every body. */
  lemma StatusBeforeBody(requested: string, status: int, text: string, b1: Body, b2: Body)
    requires status != 200
    ensures Normalize(requested, status, text, b1) == Normalize(requested, status, text, b2)
    ensures Normalize(requested, status, text, b1).Err?
  {
  }

  /** The defaults for absent optional keys of a complete body. */
  lemma NormalizeDefaults(requested: string, text: string, body: Body)
    requires Complete(body)
    ensures var rec := Normalize(requested, 200, text, body).value;
      && (body.name.None? ==> rec.city == requested)
      && (body.sys.None? || body.sys.value.country.None? ==> rec.country == "")
      && (|Conditions(body)| == 0 ==> rec.description == NoDescription)
      && (body.wind.None? || body.wind.value.speed.None? ==> rec.windSpeed == NoWind)
  {
  }

  /** A description sent as the empty string is kept; only an empty or absent list gives "N/A". */
  lemma EmptyDescriptionKept(requested: string, text: string, body: Body)
    requires Complete(body) && body.weather == Some([Condition(Some(""))])
    ensures Normalize(requested, 200, text, body).value.description == ""
  {
  }
}
