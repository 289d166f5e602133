/** The older extractors (also those of `weather_service.py`): no guard on the
    coordinates, lookups that raise instead of returning `None`, and the fact
    tuple with the location id first. The timestamp conversion is the same
    as `AppTransform.ExtractTimeData`. */
module LegacyTransform {
  import opened Json
  import opened Warehouse
  import AppTransform

  /** `(city, sys.country, coord.lat, coord.lon)`, any of the last three
      possibly null; a `sys` or `coord` that is not an object raises. */
  function ExtractLocationData(city: string, data: Obj): (r: Result<Location>)
    ensures r.Raise? <==> ("sys" in data && !data["sys"].JObject?) || ("coord" in data && !data["coord"].JObject?)
    ensures r.Raise? ==> r.exc == AttributeError
    ensures r.Ok? ==>
      var sys := if "sys" in data then data["sys"].fields else map[];
      var coord := if "coord" in data then data["coord"].fields else map[];
      r.value == Location(city, Get(sys, "country"), Get(coord, "lat"), Get(coord, "lon"))
  {
    match GetIn(data, "sys", "country")
    case Raise(e) => Raise(e)
    case Ok(country) =>
      match GetGroup(data, "coord")
      case Raise(e) => Raise(e)
      case Ok(coord) => Ok(Location(city, country, Get(coord, "lat"), Get(coord, "lon")))
  }

  /** `(location_id, time_id, temp, humidity, wind speed, pressure)`. */
  function ExtractFactData(locationId: int, timeId: int, data: Obj): (r: Result<FactTuple>)
    ensures r.Raise? <==> AppTransform.Measurements(data).Raise?
    ensures r.Ok? ==>
      && r.value.first == locationId && r.value.second == timeId
      && (r.value.temp, r.value.humidity, r.value.windSpeed, r.value.pressure) == AppTransform.Measurements(data).value
  {
    match AppTransform.Measurements(data)
    case Raise(e) => Raise(e)
    case Ok((temp, humidity, speed, pressure)) => Ok(FactTuple(locationId, timeId, temp, humidity, speed, pressure))
  }

  /** The two versions differ only in the order of the ids: bound to the
      columns `(timestamp_id, location_id, …)`, the older tuple stores the
      location id as the timestamp id and the time id as the location id. */
  lemma FactIdsSwapped(locationId: int, timeId: int, data: Obj)
    requires ExtractFactData(locationId, timeId, data).Ok?
    ensures var row := BindFact(ExtractFactData(locationId, timeId, data).value);
      row.timestampId == locationId && row.locationId == timeId
    ensures var app := AppTransform.ExtractFactData(locationId, timeId, data);
      app.Ok? && BindFact(app.value) == BindFact(ExtractFactData(timeId, locationId, data).value)
  {
  }

  /** Without a guard, a missing `coord` still yields a location, with null coordinates,
      where the newer extractor gives `None`. */
  lemma MissingCoordinatesKept(city: string, data: Obj)
    requires "coord" !in data && ("sys" !in data || data["sys"].JObject?)
    ensures ExtractLocationData(city, data).Ok?
    ensures ExtractLocationData(city, data).value.lat == JNull && ExtractLocationData(city, data).value.lon == JNull
    ensures AppTransform.ExtractLocationData(city, data).None?
  {
  }

  /** Where the newer extractor gives a location, the older one gives the same. */
  lemma AgreesWhereGuarded(city: string, data: Obj)
    ensures AppTransform.ExtractLocationData(city, data).Some? ==>
      ExtractLocationData(city, data) == Ok(AppTransform.ExtractLocationData(city, data).value)
  {
  }
}
