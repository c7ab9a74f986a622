/**
  The weather record of one city: a map from field name to a number, as
  `Map<String, Double>` in src/Main.java. The four field names are the keys
  `getWeather` fills in.
 */
module Weather {

  /** One city's measurement: field name to value. */
  type Measurement = map<string, real>

  const Temperature: string := "температура"
  const Humidity: string := "вологість"
  const WindSpeed: string := "швидкість_вітру"
  const Pressure: string := "тиск"

  /** Every measurement in `data` carries the field `name`. */
  predicate HasField(data: seq<Measurement>, name: string)
  {
    forall i :: 0 <= i < |data| ==> name in data[i]
  }

  /** The values of field `name`, one per measurement, in order. */
  function Column(data: seq<Measurement>, name: string): seq<real>
    requires HasField(data, name)
  {
    seq(|data|, i requires 0 <= i < |data| => data[i][name])
  }

  /**
    What `getWeather` produces: exactly the four fields, each drawn from
    `lo + Math.random() * width`. `Math.random()` is below 1, but for three of
    the fields (temperature, humidity, pressure) the double sum can round up
    to `lo + width`; the bounds are inclusive for all four.
   */
  predicate Generated(w: Measurement)
    ensures Generated(w) ==> Temperature in w && WindSpeed in w && Pressure in w
    ensures Generated(w) ==> |w| == 4
  {
    && w.Keys == {Temperature, Humidity, WindSpeed, Pressure}
    && 15.0 <= w[Temperature] <= 35.0
    && 40.0 <= w[Humidity] <= 70.0
    && 5.0 <= w[WindSpeed] <= 15.0
    && 1000.0 <= w[Pressure] <= 1020.0
  }

  /** Generated measurements carry every field the aggregation reads. */
  lemma GeneratedHasFields(data: seq<Measurement>)
    requires forall i :: 0 <= i < |data| ==> Generated(data[i])
    ensures HasField(data, Temperature) && HasField(data, WindSpeed) && HasField(data, Pressure)
  {
  }
}
