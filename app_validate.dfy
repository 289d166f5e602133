/** `validate_weather_data` of the application package: every failing field is
    collected into `invalid_fields`, and the payload is accepted only when
    that list is empty. */
module AppValidate {
  import opened Json
  import opened Checks
  import UtcTime
  import Samples

  const RequiredKeys: seq<string> := ["dt", "main", "wind", "sys", "name"]

  /** The entries the loop over `required_keys` appends for `keys`, in order. */
  function MissingKeys(data: Obj, keys: seq<string>): seq<Invalid>
    decreases |keys|
  {
    if keys == [] then []
    else
      var k := keys[|keys| - 1];
      MissingKeys(data, keys[..|keys| - 1]) + (if k in data then [] else [Invalid(k, JNull, false)])
  }

  /** The timestamp check: `dt` an int whose UTC conversion succeeds. */
  function DtEntries(data: Obj): seq<Invalid> {
    if "dt" !in data || !IsInt(data["dt"]) then [Invalid("dt", Get(data, "dt"), false)]
    else if !UtcTime.ValidTimestamp(IntValue(data["dt"])) then [Invalid("dt", data["dt"], false)]
    else []
  }

  /** The entries for one field of `main`: the type check, then for `temp` the range check. */
  function MainFieldEntries(main: Obj, field: string): seq<Invalid> {
    TypeEntry(main, field, field)
      + (if field == "temp" && IsNumber(Get(main, "temp")) && NumValue(main["temp"]) <= -100.0
         then [Invalid("temp", main["temp"], true)] else [])
  }

  /** The entries the loop over `main_fields_to_validate` appends for `fields`. */
  function MainEntries(main: Obj, fields: seq<string>): seq<Invalid>
    decreases |fields|
  {
    if fields == [] then []
    else MainEntries(main, fields[..|fields| - 1]) + MainFieldEntries(main, fields[|fields| - 1])
  }

  /** The whole `invalid_fields` list, in the order the source builds it. */
  function InvalidFields(data: Obj): seq<Invalid>
    requires !RaisesOn(data)
  {
    MissingKeys(data, RequiredKeys)
      + DtEntries(data)
      + (if "main" in data then MainEntries(data["main"].fields, MainFields) else [])
      + WindEntries(data)
  }

  /** What one call of `validate_weather_data(city, data)` does. */
  function Validation(data: Obj): Verdict {
    if RaisesOn(data) then Raises
    else
      var inv := InvalidFields(data);
      Returns(inv == [], inv)
  }

  method ValidateWeatherData(data: Obj) returns (v: Verdict)
    ensures v == Validation(data)
    ensures v.Returns? ==> (v.valid <==> v.invalid == [])
  {
    var invalid := CheckRequiredKeys(data);
    if "dt" !in data || !IsInt(data["dt"]) {
      invalid := invalid + [Invalid("dt", Get(data, "dt"), false)];
    } else if !UtcTime.ValidTimestamp(IntValue(data["dt"])) {
      invalid := invalid + [Invalid("dt", Get(data, "dt"), false)];
    }
    ghost var checked := MissingKeys(data, RequiredKeys) + DtEntries(data);
    assert invalid == checked;

    if "main" in data {
      if !data["main"].JObject? {
        return Raises;
      }
      invalid := CheckMainFields(data["main"].fields, invalid);
    }
    checked := checked + if "main" in data then MainEntries(data["main"].fields, MainFields) else [];
    assert invalid == checked;

    if "wind" in data {
      if !data["wind"].JObject? {
        return Raises;
      }
      var wind := data["wind"].fields;
      if "speed" !in wind || !IsNumber(wind["speed"]) {
        invalid := invalid + [Invalid("wind_speed", Get(wind, "speed"), false)];
      }
    }
    assert !RaisesOn(data) && invalid == InvalidFields(data);
    v := Returns(invalid == [], invalid);
  }

  /** The loop over `required_keys`. */
  method CheckRequiredKeys(data: Obj) returns (invalid: seq<Invalid>)
    ensures invalid == MissingKeys(data, RequiredKeys)
  {
    invalid := [];
    for i := 0 to |RequiredKeys|
      invariant invalid == MissingKeys(data, RequiredKeys[..i])
    {
      var key := RequiredKeys[i];
      assert RequiredKeys[..i + 1][..i] == RequiredKeys[..i];
      if key !in data {
        invalid := invalid + [Invalid(key, Get(data, key), false)];
      }
    }
    assert RequiredKeys[..|RequiredKeys|] == RequiredKeys;
  }

  /** The loop over `main_fields_to_validate`, appending to `invalid0`. */
  method CheckMainFields(main: Obj, invalid0: seq<Invalid>) returns (invalid: seq<Invalid>)
    ensures invalid == invalid0 + MainEntries(main, MainFields)
  {
    invalid := invalid0;
    for j := 0 to |MainFields|
      invariant invalid == invalid0 + MainEntries(main, MainFields[..j])
    {
      var field := MainFields[j];
      var entries: seq<Invalid> := [];
      if field !in main || !IsNumber(main[field]) {
        entries := [Invalid(field, Get(main, field), false)];
      }
      if field == "temp" && IsNumber(Get(main, "temp")) && NumValue(main["temp"]) <= -100.0 {
        entries := entries + [Invalid("temp", main["temp"], true)];
      }
      assert entries == MainFieldEntries(main, field);
      MainEntriesStep(main, j, invalid0);
      invalid := invalid + entries;
    }
    assert MainFields[..|MainFields|] == MainFields;
  }

  lemma MainEntriesStep(main: Obj, j: int, prefix: seq<Invalid>)
    requires 0 <= j < |MainFields|
    ensures prefix + MainEntries(main, MainFields[..j + 1])
         == prefix + MainEntries(main, MainFields[..j]) + MainFieldEntries(main, MainFields[j])
  {
    assert MainFields[..j + 1][..j] == MainFields[..j];
  }

  /** An independent statement of what the validator accepts. */
  predicate Acceptable(data: Obj) {
    && "dt" in data && "main" in data && "wind" in data && "sys" in data && "name" in data
    && IsInt(data["dt"]) && UtcTime.ValidTimestamp(IntValue(data["dt"]))
    && data["main"].JObject?
    && (forall f :: f in MainFields ==> f in data["main"].fields && IsNumber(data["main"].fields[f]))
    && NumValue(data["main"].fields["temp"]) > -100.0
    && data["wind"].JObject?
    && "speed" in data["wind"].fields && IsNumber(data["wind"].fields["speed"])
  }

  predicate Accepts(data: Obj) {
    Validation(data) == Returns(true, [])
  }

  /** The required-keys loop, unrolled. */
  lemma MissingRequiredKeys(data: Obj)
    ensures MissingKeys(data, RequiredKeys) ==
      MissingKeys(data, ["dt"]) + MissingKeys(data, ["main"]) + MissingKeys(data, ["wind"])
      + MissingKeys(data, ["sys"]) + MissingKeys(data, ["name"])
  {
    var k5: seq<string> := ["dt", "main", "wind", "sys", "name"];
    var k4: seq<string> := ["dt", "main", "wind", "sys"];
    var k3: seq<string> := ["dt", "main", "wind"];
    var k2: seq<string> := ["dt", "main"];
    var k1: seq<string> := ["dt"];
    assert MissingKeys(data, k2) == MissingKeys(data, k1) + MissingKeys(data, ["main"]) by {
      assert k2[..1] == k1;
      SingleKey(data, "main");
    }
    assert MissingKeys(data, k3) == MissingKeys(data, k2) + MissingKeys(data, ["wind"]) by {
      assert k3[..2] == k2;
      SingleKey(data, "wind");
    }
    assert MissingKeys(data, k4) == MissingKeys(data, k3) + MissingKeys(data, ["sys"]) by {
      assert k4[..3] == k3;
      SingleKey(data, "sys");
    }
    assert MissingKeys(data, k5) == MissingKeys(data, k4) + MissingKeys(data, ["name"]) by {
      assert k5[..4] == k4;
      SingleKey(data, "name");
    }
  }

  lemma SingleKey(data: Obj, k: string)
    ensures MissingKeys(data, [k]) == if k in data then [] else [Invalid(k, JNull, false)]
  {
    assert [k][..0] == [];
  }

  /** The main-fields loop, unrolled. */
  lemma MainFieldsUnrolled(main: Obj)
    ensures MainEntries(main, MainFields) ==
      MainFieldEntries(main, "temp") + MainFieldEntries(main, "humidity") + MainFieldEntries(main, "pressure")
  {
    assert MainFields[..2] == ["temp", "humidity"];
    assert MainFields[..2][..1] == ["temp"];
    assert ["temp"][..0] == [];
  }

  /** The validator accepts exactly the payloads that have every required key,
      an int `dt` that converts, numeric `temp`, `humidity`, `pressure` and
      `wind.speed`, and a temperature above -100; otherwise it rejects or raises. */
  lemma AcceptsIff(data: Obj)
    ensures Accepts(data) <==> Acceptable(data)
  {
    if !RaisesOn(data) {
      RequiredKeysPresent(data);
      if "main" in data {
        MainFieldsPass(data["main"].fields);
      }
    }
  }

  /** The required-keys loop records nothing exactly when all five keys are present. */
  lemma RequiredKeysPresent(data: Obj)
    ensures MissingKeys(data, RequiredKeys) == []
        <==> "dt" in data && "main" in data && "wind" in data && "sys" in data && "name" in data
  {
    MissingRequiredKeys(data);
    SingleKey(data, "dt");
  }

  /** The main-fields loop records nothing exactly when the three fields are
      numbers and the temperature is above -100. */
  lemma MainFieldsPass(main: Obj)
    ensures MainEntries(main, MainFields) == []
        <==> (forall f :: f in MainFields ==> f in main && IsNumber(main[f]))
             && NumValue(main["temp"]) > -100.0
  {
    MainFieldsUnrolled(main);
    var t, h, p := MainFieldEntries(main, "temp"), MainFieldEntries(main, "humidity"), MainFieldEntries(main, "pressure");
    assert h == TypeEntry(main, "humidity", "humidity");
    assert p == TypeEntry(main, "pressure", "pressure");
    assert t == [] <==> "temp" in main && IsNumber(main["temp"]) && NumValue(main["temp"]) > -100.0;
    assert t + h + p == [] <==> t == [] && h == [] && p == [] by {
      assert |t + h + p| == |t| + |h| + |p|;
    }
    assert forall f :: f in MainFields <==> f == "temp" || f == "humidity" || f == "pressure";
  }

  /** Each absent required top-level key causes rejection. */
  lemma MissingKeyRejects(data: Obj, k: string)
    requires k in RequiredKeys && k !in data
    ensures !Accepts(data)
  {
    AcceptsIff(data);
  }

  /** A `dt` that is absent, not an int, or outside what `fromtimestamp` can
      convert is rejected, and the entry names 'dt'. */
  lemma BadTimestampRejects(data: Obj)
    requires "dt" !in data || !IsInt(data["dt"]) || !UtcTime.ValidTimestamp(IntValue(data["dt"]))
    ensures !Accepts(data)
    ensures Validation(data).Returns? ==> Occurrences(Validation(data).invalid, "dt") >= 1
  {
    AcceptsIff(data);
    if !RaisesOn(data) {
      var inv := InvalidFields(data);
      var a := MissingKeys(data, RequiredKeys);
      var c := if "main" in data then MainEntries(data["main"].fields, MainFields) else [];
      OccurrencesAppend(a, DtEntries(data), "dt");
      OccurrencesAppend(a + DtEntries(data), c, "dt");
      OccurrencesAppend(a + DtEntries(data) + c, WindEntries(data), "dt");
    }
  }

  /** The checks are not short-circuited: an absent `dt` is recorded twice,
      once by the required-keys loop and once by the timestamp check. */
  lemma MissingDtRecordedTwice(data: Obj)
    requires "dt" !in data && !RaisesOn(data)
    ensures Validation(data).Returns?
    ensures Occurrences(Validation(data).invalid, "dt") == 2
  {
    var a := MissingKeys(data, RequiredKeys);
    var b := DtEntries(data);
    var c := if "main" in data then MainEntries(data["main"].fields, MainFields) else [];
    var d := WindEntries(data);
    MissingKeysOccurrences(data, RequiredKeys, "dt");
    RequiredDtOnce();
    assert Occurrences(b, "dt") == 1 by {
      assert b == [Invalid("dt", JNull, false)];
      assert b[1..] == [];
    }
    if "main" in data {
      assert "dt" !in MainFields;
      MainEntriesOccurrences(data["main"].fields, MainFields, "dt");
    }
    assert Occurrences(d, "dt") == 0 by {
      if d != [] {
        assert d == [Invalid("wind_speed", d[0].value, false)];
        assert d[1..] == [];
      }
    }
    OccurrencesAppend(a, b, "dt");
    OccurrencesAppend(a + b, c, "dt");
    OccurrencesAppend(a + b + c, d, "dt");
  }

  lemma RequiredDtOnce()
    ensures multiset(RequiredKeys)["dt"] == 1
  {
    assert RequiredKeys == ["dt"] + ["main", "wind", "sys", "name"];
    assert "dt" !in multiset(["main", "wind", "sys", "name"]);
  }

  /** The required-keys loop records `k` once per occurrence in `keys` when
      `k` is absent, and never when it is present. */
  lemma {:induction false} MissingKeysOccurrences(data: Obj, keys: seq<string>, k: string)
    ensures Occurrences(MissingKeys(data, keys), k) == if k in data then 0 else multiset(keys)[k]
    decreases |keys|
  {
    if keys != [] {
      var init, last := keys[..|keys| - 1], keys[|keys| - 1];
      assert keys == init + [last];
      MissingKeysOccurrences(data, init, k);
      OccurrencesAppend(MissingKeys(data, init), if last in data then [] else [Invalid(last, JNull, false)], k);
    }
  }

  /** The main-fields loop only records the fields it visits. */
  lemma {:induction false} MainEntriesOccurrences(main: Obj, fields: seq<string>, k: string)
    requires k !in fields
    ensures Occurrences(MainEntries(main, fields), k) == 0
    decreases |fields|
  {
    if fields != [] {
      var init, last := fields[..|fields| - 1], fields[|fields| - 1];
      assert k !in init by {
        assert forall x :: x in init ==> x in fields;
      }
      MainEntriesOccurrences(main, init, k);
      var t := if last == "temp" && IsNumber(Get(main, "temp")) && NumValue(main["temp"]) <= -100.0
               then [Invalid("temp", main["temp"], true)] else [];
      OccurrencesAppend(TypeEntry(main, last, last), t, k);
      OccurrencesAppend(MainEntries(main, init), MainFieldEntries(main, last), k);
    }
  }

  /** `coord` is never looked at: adding, changing or removing it does not
      change the verdict, so a payload without coordinates can pass. */
  lemma CoordNeverChecked(data: Obj, c: Json)
    ensures Validation(data["coord" := c]) == Validation(data - {"coord"})
  {
    var d1, d2 := data["coord" := c], data - {"coord"};
    MissingRequiredKeys(d1);
    MissingRequiredKeys(d2);
    assert forall k :: k != "coord" ==> (k in d1 <==> k in d2) && (k in d1 ==> d1[k] == d2[k]);
    assert RaisesOn(d1) == RaisesOn(d2);
    if !RaisesOn(d1) {
      assert MissingKeys(d1, RequiredKeys) == MissingKeys(d2, RequiredKeys);
      assert DtEntries(d1) == DtEntries(d2);
      assert InvalidFields(d1) == InvalidFields(d2);
    }
  }

  /** The London observation passes. */
  lemma LondonAccepted()
    ensures Accepts(Samples.London)
  {
    AcceptsIff(Samples.London);
  }

  /** With every other field as in the London observation, only the range
      check on `temp` decides. */
  lemma WithTempAccepts(t: real)
    ensures Accepts(Samples.WithTemp(t)) <==> t > -100.0
  {
    var d := Samples.WithTemp(t);
    AcceptsIff(d);
    assert d["dt"] == JInt(1700000000) && UtcTime.ValidTimestamp(1700000000);
    assert d["wind"].fields == map["speed" := JReal(3.1)];
    assert d["main"].fields == Samples.LondonMain["temp" := JReal(t)];
  }

  /** The range check is strict: -100 is rejected, -99.9 passes. */
  lemma TemperatureBoundary()
    ensures !Accepts(Samples.WithTemp(-100.0))
    ensures Accepts(Samples.WithTemp(-99.9))
  {
    WithTempAccepts(-100.0);
    WithTempAccepts(-99.9);
  }

  /** A JSON boolean is an int to `isinstance`, so `"humidity": true` passes. */
  lemma BooleanPassesNumericCheck()
    ensures Accepts(Samples.London["main" := JObject(Samples.LondonMain["humidity" := JBool(true)])])
  {
    AcceptsIff(Samples.London["main" := JObject(Samples.LondonMain["humidity" := JBool(true)])]);
  }
}
