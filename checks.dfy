/** What the two versions of `validate_weather_data` have in common: the shape
    of an `invalid_fields` entry, the verdict, and the checks both make in the
    same words. */
module Checks {
  import opened Json

  /** One entry of `invalid_fields`: the field name and the offending value;
      `outOfRange` marks the entry that carries a range 'reason'. */
  datatype Invalid = Invalid(field: string, value: Json, outOfRange: bool)

  /** What a call of the validator does: it raises, or returns its boolean
      together with the list it logs. */
  datatype Verdict = Raises | Returns(valid: bool, invalid: seq<Invalid>)

  /** The payload `main` fields both validators type-check, in order. */
  const MainFields: seq<string> := ["temp", "humidity", "pressure"]

  /** `field in main` and `main[field]` raise on a `main` or `wind` that is not
      a dict (a string, a number, `None`); both validators look inside each
      group that is present. */
  predicate RaisesOn(data: Obj) {
    || ("main" in data && !data["main"].JObject?)
    || ("wind" in data && !data["wind"].JObject?)
  }

  /** The entry for `field not in d or not isinstance(d[field], (int, float))`. */
  function TypeEntry(d: Obj, field: string, name: string): (r: seq<Invalid>)
    ensures r == [] <==> field in d && IsNumber(d[field])
    ensures r != [] ==> r == [Invalid(name, Get(d, field), false)]
  {
    if field !in d || !IsNumber(d[field]) then [Invalid(name, Get(d, field), false)] else []
  }

  /** The wind check: `wind.speed` present and numeric, logged as 'wind_speed'. */
  function WindEntries(data: Obj): seq<Invalid>
    requires !RaisesOn(data)
  {
    if "wind" in data then TypeEntry(data["wind"].fields, "speed", "wind_speed") else []
  }

  /** How many entries of `inv` name `field`. */
  function Occurrences(inv: seq<Invalid>, field: string): nat {
    if inv == [] then 0
    else (if inv[0].field == field then 1 else 0) + Occurrences(inv[1..], field)
  }

  lemma {:induction false} OccurrencesAppend(a: seq<Invalid>, b: seq<Invalid>, field: string)
    ensures Occurrences(a + b, field) == Occurrences(a, field) + Occurrences(b, field)
  {
    if a != [] {
      assert (a + b)[0] == a[0];
      assert (a + b)[1..] == a[1..] + b;
      OccurrencesAppend(a[1..], b, field);
    } else {
      assert a + b == b;
    }
  }
}
