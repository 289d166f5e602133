/** The older `validate_weather_data`: only `dt` is required, the `main` and
    `wind` groups are type-checked when present, and there is no range check. */
module LegacyValidate {
  import opened Json
  import opened Checks
  import AppValidate
  import Samples

  /** The `dt` check: present and an int. */
  function DtEntries(data: Obj): seq<Invalid> {
    if "dt" !in data || !IsInt(data["dt"]) then [Invalid("dt", Get(data, "dt"), false)] else []
  }

  /** The entries the loop over `main_fields_to_validate` appends for `fields`. */
  function MainEntries(main: Obj, fields: seq<string>): seq<Invalid>
    decreases |fields|
  {
    if fields == [] then []
    else MainEntries(main, fields[..|fields| - 1]) + TypeEntry(main, fields[|fields| - 1], fields[|fields| - 1])
  }

  function InvalidFields(data: Obj): seq<Invalid>
    requires !RaisesOn(data)
  {
    DtEntries(data)
      + (if "main" in data then MainEntries(data["main"].fields, MainFields) else [])
      + WindEntries(data)
  }

  /** What one call of the older `validate_weather_data(city, data)` does. */
  function Validation(data: Obj): Verdict {
    if RaisesOn(data) then Raises
    else
      var inv := InvalidFields(data);
      Returns(inv == [], inv)
  }

  method ValidateWeatherData(data: Obj) returns (v: Verdict)
    ensures v == Validation(data)
    ensures v.Returns? ==> (v.valid <==> v.invalid == [])
  {
    var invalid: seq<Invalid> := [];
    if "dt" !in data || !IsInt(data["dt"]) {
      invalid := invalid + [Invalid("dt", Get(data, "dt"), false)];
    }
    if "main" in data {
      if !data["main"].JObject? {
        return Raises;
      }
      invalid := CheckMainFields(data["main"].fields, invalid);
    }
    ghost var checked := DtEntries(data) + if "main" in data then MainEntries(data["main"].fields, MainFields) else [];
    assert invalid == checked;
    if "wind" in data {
      if !data["wind"].JObject? {
        return Raises;
      }
      var wind := data["wind"].fields;
      if "speed" !in wind || !IsNumber(wind["speed"]) {
        invalid := invalid + [Invalid("wind_speed", Get(wind, "speed"), false)];
      }
    }
    assert !RaisesOn(data) && invalid == InvalidFields(data);
    v := Returns(invalid == [], invalid);
  }

  /** The loop over `main_fields_to_validate`, appending to `invalid0`. */
  method CheckMainFields(main: Obj, invalid0: seq<Invalid>) returns (invalid: seq<Invalid>)
    ensures invalid == invalid0 + MainEntries(main, MainFields)
  {
    invalid := invalid0;
    for j := 0 to |MainFields|
      invariant invalid == invalid0 + MainEntries(main, MainFields[..j])
    {
      var field := MainFields[j];
      ghost var done := invalid;
      if field !in main || !IsNumber(main[field]) {
        invalid := invalid + [Invalid(field, Get(main, field), false)];
      }
      assert invalid == done + TypeEntry(main, field, field);
      assert MainFields[..j + 1][..j] == MainFields[..j];
      assert invalid0 + MainEntries(main, MainFields[..j + 1])
          == (invalid0 + MainEntries(main, MainFields[..j])) + TypeEntry(main, field, field);
    }
    assert MainFields[..|MainFields|] == MainFields;
  }

  /** An independent statement of what the older validator accepts. */
  predicate Acceptable(data: Obj) {
    && "dt" in data && IsInt(data["dt"])
    && ("main" in data ==>
          data["main"].JObject?
          && forall f :: f in MainFields ==> f in data["main"].fields && IsNumber(data["main"].fields[f]))
    && ("wind" in data ==>
          data["wind"].JObject? && "speed" in data["wind"].fields && IsNumber(data["wind"].fields["speed"]))
  }

  predicate Accepts(data: Obj) {
    Validation(data) == Returns(true, [])
  }

  /** The main-fields loop records nothing exactly when the three fields are numbers. */
  lemma MainFieldsPass(main: Obj)
    ensures MainEntries(main, MainFields) == []
        <==> forall f :: f in MainFields ==> f in main && IsNumber(main[f])
  {
    assert MainFields[..2] == ["temp", "humidity"];
    assert MainFields[..2][..1] == ["temp"];
    assert ["temp"][..0] == [];
    assert MainEntries(main, MainFields) ==
      TypeEntry(main, "temp", "temp") + TypeEntry(main, "humidity", "humidity") + TypeEntry(main, "pressure", "pressure");
    assert forall f :: f in MainFields <==> f == "temp" || f == "humidity" || f == "pressure";
  }

  /** The older validator accepts exactly the payloads with an int `dt` whose
      `main` and `wind` groups, where present, hold numbers. */
  lemma AcceptsIff(data: Obj)
    ensures Accepts(data) <==> Acceptable(data)
  {
    if !RaisesOn(data) && "main" in data {
      MainFieldsPass(data["main"].fields);
    }
  }

  /** A missing or non-int `dt` is rejected. */
  lemma BadTimestampRejects(data: Obj)
    requires "dt" !in data || !IsInt(data["dt"])
    ensures !Accepts(data)
  {
    AcceptsIff(data);
  }

  /** Without `main` and `wind`, the three main fields and the wind speed are never looked at. */
  lemma AbsentGroupsNotFlagged(data: Obj)
    requires "main" !in data && "wind" !in data
    ensures Validation(data) == Returns(IsInt(Get(data, "dt")), DtEntries(data))
  {
  }

  /** `{"dt": 1700000000}` alone is accepted. */
  lemma TimestampAloneAccepted()
    ensures Accepts(map["dt" := JInt(1700000000)])
  {
    AcceptsIff(map["dt" := JInt(1700000000)]);
  }

  /** Whatever the newer validator accepts, the older one accepts too. */
  lemma AppAcceptsImpliesLegacy(data: Obj)
    ensures AppValidate.Accepts(data) ==> Accepts(data)
  {
    AppValidate.AcceptsIff(data);
    AcceptsIff(data);
  }

  /** The converse fails: the older validator has no required keys, so
      `{"dt": 1700000000}` passes it and not the newer one. */
  lemma TimestampAloneOnlyLegacy()
    ensures Accepts(map["dt" := JInt(1700000000)]) && !AppValidate.Accepts(map["dt" := JInt(1700000000)])
  {
    TimestampAloneAccepted();
    AppValidate.MissingKeyRejects(map["dt" := JInt(1700000000)], "main");
  }

  /** Nor has it a temperature range, so the London observation at -150
      passes it and not the newer one. */
  lemma ColdTemperatureOnlyLegacy()
    ensures Accepts(Samples.WithTemp(-150.0)) && !AppValidate.Accepts(Samples.WithTemp(-150.0))
  {
    var d := Samples.WithTemp(-150.0);
    AppValidate.WithTempAccepts(-150.0);
    AcceptsIff(d);
    assert d["dt"] == JInt(1700000000);
    assert d["wind"].fields == map["speed" := JReal(3.1)];
    assert d["main"].fields == Samples.LondonMain["temp" := JReal(-150.0)];
  }
}
