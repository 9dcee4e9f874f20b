/**
 * The entities of the plant monitor (src/types/index.ts) and the small part of
 * JavaScript's value model that the sensor code depends on: JSON values, the
 * number-or-NaN that parseFloat yields, truthiness, and an HTTP exchange whose
 * outcome is handed in from outside.
 */
module Types {

  datatype Option<+T> = None | Some(value: T)

  /** `Plant.health`: exactly one of four values. */
  datatype Health = Excellent | Good | Fair | Poor

  /** The optional Room Alert configuration of a garden. */
  datatype SensorConfig = SensorConfig(
    deviceId: string,
    sensorName: string,
    model: Option<string>,
    serialNumber: Option<string>)

  datatype Garden = Garden(
    id: int,
    name: string,
    plantCount: int,
    roomAlertConfig: Option<SensorConfig>)

  datatype Plant = Plant(
    id: int,
    name: string,
    plantType: string,
    temp: int,
    humidity: int,
    light: string,
    waterLevel: string,
    lastWatered: string,
    health: Health,
    image: string)

  /** `PlantsMap`: garden id to the ordered list of its plants. */
  type PlantsMap = map<int, seq<Plant>>

  /** What the add-plant form hands over: no id and no care fields. */
  datatype NewPlantForm = NewPlantForm(name: string, plantType: string, image: string)

  /** A JavaScript number as produced by parseFloat: a finite value or NaN. */
  datatype Num = Finite(r: real) | NaN

  /** A JSON value as produced by `response.json()`. */
  datatype Json =
    | JNull
    | JBool(b: bool)
    | JNum(n: real)
    | JStr(s: string)
    | JArr(items: seq<Json>)
    | JObj(fields: map<string, Json>)

  /** Property access `o.key` on a JSON object: None is JavaScript's undefined. */
  function Field(fields: map<string, Json>, key: string): Option<Json>
  {
    if key in fields then Some(fields[key]) else None
  }

  /** JavaScript truthiness of a possibly-undefined JSON value. */
  predicate Truthy(v: Option<Json>)
  {
    match v
    case None => false
    case Some(j) =>
      match j
      case JNull => false
      case JBool(b) => b
      case JNum(n) => n != 0.0
      case JStr(s) => s != ""
      case JArr(_) => true
      case JObj(_) => true
  }

  /** JavaScript truthiness of an optional string (`undefined`, `''` are falsy). */
  predicate Present(s: Option<string>)
  {
    s.Some? && s.value != ""
  }

  /** The argument handed to `new Date(...)`: a response field or the clock's milliseconds. */
  datatype DateArg = FromField(field: Json) | FromClock(millis: int)

  /**
   * `RoomAlertData`: exactly these five fields. `sensorName` is declared a string,
   * but the service copies the response's `name` into it unchecked, so it is a JSON value.
   */
  datatype RoomAlertData = RoomAlertData(
    temperature: Num,
    humidity: Num,
    timestamp: DateArg,
    deviceId: string,
    sensorName: Json)

  /**
   * The outcome of one `fetch`: the promise rejected (network failure), or a response
   * with a status and a body that either parses as JSON or makes `json()` reject.
   */
  datatype HttpReply = NetworkFailure | Reply(status: nat, body: Option<Json>)

  /** `Response.ok`: the status is in the 2xx range. */
  predicate IsOk(status: nat)
  {
    200 <= status <= 299
  }
}
