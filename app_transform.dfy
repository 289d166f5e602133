/** The extractors of the application package: the location tuple (or `None`),
    the five UTC calendar fields of a timestamp, and the fact tuple with the
    time id first. */
module AppTransform {
  import opened Json
  import opened UtcTime
  import opened Warehouse
  import Samples

  /** `extract_location_data(city, data)`: `None` when a lookup raises (a
      `sys` or `coord` that is not an object) or when latitude or longitude
      is missing or null; otherwise the argument `city`, the country (which
      may be null) and the coordinates. */
  function ExtractLocationData(city: string, data: Obj): (r: Option<Location>)
    ensures r.None? <==>
      || ("sys" in data && !data["sys"].JObject?)
      || "coord" !in data || !data["coord"].JObject?
      || Get(data["coord"].fields, "lat") == JNull || Get(data["coord"].fields, "lon") == JNull
    ensures r.Some? ==>
      && r.value.city == city
      && r.value.country == (if "sys" in data then Get(data["sys"].fields, "country") else JNull)
      && r.value.lat == data["coord"].fields["lat"] && r.value.lat != JNull
      && r.value.lon == data["coord"].fields["lon"] && r.value.lon != JNull
  {
    match GetIn(data, "sys", "country")
    case Raise(_) => None
    case Ok(country) =>
      match GetIn(data, "coord", "lat")
      case Raise(_) => None
      case Ok(lat) =>
        match GetIn(data, "coord", "lon")
        case Raise(_) => None
        case Ok(lon) =>
          if lat == JNull || lon == JNull then None
          else Some(Location(city, country, lat, lon))
  }

  /** The whole seconds `fromtimestamp` works from; a float is floored. */
  function Seconds(ts: Json): int
    requires IsNumber(ts)
  {
    NumValue(ts).Floor
  }

  /** `extract_time_data(timestamp)`: `datetime.fromtimestamp(timestamp,
      tz=timezone.utc)` cut to `(year, month, day, hour, minute)`. A value that
      is not a number raises `TypeError`; one outside years 1..9999 raises
      `ValueError` (or `OverflowError`). */
  function ExtractTimeData(ts: Json): (r: Result<Minute>)
    ensures r.Raise? <==> !IsNumber(ts) || !ValidTimestamp(Seconds(ts))
    ensures r.Raise? ==> r.exc == (if IsNumber(ts) then ValueError else TypeError)
    ensures r.Ok? ==>
      && ValidDate(Date(r.value.year, r.value.month, r.value.day))
      && 1 <= r.value.year <= 9999
      && 0 <= r.value.hour < 24 && 0 <= r.value.minute < 60
      && EpochSeconds(r.value) == Seconds(ts) - Seconds(ts) % 60
  {
    if !IsNumber(ts) then Raise(TypeError)
    else
      var t := Seconds(ts);
      if !ValidTimestamp(t) then Raise(ValueError)
      else
        ValidTimestampRange(t);
        ToUtcRoundTrip(t);
        Ok(ToUtc(t))
  }

  /** Two timestamps in the same UTC minute give the same five fields, or
      both raise `ValueError`. */
  lemma SameMinuteSameFields(t1: int, t2: int)
    requires t1 / 60 == t2 / 60
    ensures ExtractTimeData(JInt(t2)) == ExtractTimeData(JInt(t1))
  {
    assert Seconds(JInt(t1)) == t1 && Seconds(JInt(t2)) == t2;
    ValidTimestampSameMinute(t1, t2);
    ToUtcSameMinute(t1, t2);
  }

  /** The timestamp of the London observation is 2023-11-14 22:13 UTC. */
  lemma ExtractTimeExample()
    ensures ExtractTimeData(JInt(1700000000)) == Ok(Minute(2023, 11, 14, 22, 13))
  {
    assert Seconds(JInt(1700000000)) == 1700000000;
    ToUtcExample();
  }

  /** The four measurements `extract_fact_data` reads: `main.temp`,
      `main.humidity`, `wind.speed`, `main.pressure`, each `None` when absent;
      a `main` or `wind` that is not an object raises `AttributeError`. */
  function Measurements(data: Obj): (r: Result<(Json, Json, Json, Json)>)
    ensures r.Raise? <==> ("main" in data && !data["main"].JObject?) || ("wind" in data && !data["wind"].JObject?)
    ensures r.Raise? ==> r.exc == AttributeError
    ensures r.Ok? ==> r.value == Readings(data)
  {
    match GetGroup(data, "main")
    case Raise(e) => Raise(e)
    case Ok(main) =>
      match GetIn(data, "wind", "speed")
      case Raise(e) => Raise(e)
      case Ok(speed) => Ok((Get(main, "temp"), Get(main, "humidity"), speed, Get(main, "pressure")))
  }

  /** The four values `extract_fact_data` reads from a payload whose groups are
      objects or absent: `main.temp`, `main.humidity`, `wind.speed` and
      `main.pressure`, each `None` when absent (an absent group reads as `{}`). */
  function Readings(data: Obj): Reading {
    var main := if "main" in data && data["main"].JObject? then data["main"].fields else map[];
    var wind := if "wind" in data && data["wind"].JObject? then data["wind"].fields else map[];
    (Get(main, "temp"), Get(main, "humidity"), Get(wind, "speed"), Get(main, "pressure"))
  }

  /** `extract_fact_data(location_id, time_id, data)`: the tuple
      `(time_id, location_id, temp, humidity, wind speed, pressure)`. */
  function ExtractFactData(locationId: int, timeId: int, data: Obj): (r: Result<FactTuple>)
    ensures r.Raise? <==> Measurements(data).Raise?
    ensures r.Ok? ==>
      && BindFact(r.value).timestampId == timeId && BindFact(r.value).locationId == locationId
      && (r.value.temp, r.value.humidity, r.value.windSpeed, r.value.pressure) == Measurements(data).value
  {
    match Measurements(data)
    case Raise(e) => Raise(e)
    case Ok((temp, humidity, speed, pressure)) => Ok(FactTuple(timeId, locationId, temp, humidity, speed, pressure))
  }

  /** The London observation gives the location (London, GB, 51.5, -0.1). */
  lemma LondonLocation()
    ensures ExtractLocationData("London", Samples.London)
         == Some(Location("London", JStr("GB"), JReal(51.5), JReal(-0.1)))
  {
  }
}
