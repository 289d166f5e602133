/** The London observation used by the example lemmas. */
module Samples {
  import opened Json

  const LondonMain: Obj := map["temp" := JReal(15.2), "humidity" := JInt(80), "pressure" := JInt(1012)]

  const London: Obj := map[
    "dt" := JInt(1700000000),
    "main" := JObject(LondonMain),
    "wind" := JObject(map["speed" := JReal(3.1)]),
    "sys" := JObject(map["country" := JStr("GB")]),
    "coord" := JObject(map["lat" := JReal(51.5), "lon" := JReal(-0.1)]),
    "name" := JStr("London")
  ]

  /** The same payload with `main.temp` replaced. */
  function WithTemp(t: real): Obj {
    London["main" := JObject(LondonMain["temp" := JReal(t)])]
  }
}
