/**
 * Reading one Room Alert device in the browser (src/utils/roomAlertService.ts):
 * the request URL, the two first-match searches over the `sensors` array, and
 * the reading assembled from the response. The HTTP exchange, `parseFloat` and
 * the clock are parameters.
 */
module RoomAlertService {
  import opened Types
  import opened Text
  import RoomAlertRelay

  const DefaultBaseUrl := "https://account.roomalert.com"
  const DevicePath := "/public/device/"
  const DefaultDeviceName := "Room Alert Device"

  /** The configured base URL when it is a non-empty string, else the public host. */
  function BaseUrl(configured: Option<string>): (r: string)
    ensures r != ""
    ensures Present(configured) ==> r == configured.value
    ensures !Present(configured) ==> r == DefaultBaseUrl
  {
    if Present(configured) then configured.value else DefaultBaseUrl
  }

  /** `${base}/public/device/${deviceId}`. */
  function RequestUrl(base: string, deviceId: string): (r: string)
    ensures |r| == |base| + |DevicePath| + |deviceId|
    ensures r[..|base|] == base
    ensures r[|base|..|base| + |DevicePath|] == DevicePath
    ensures r[|base| + |DevicePath|..] == deviceId
  {
    var r := base + DevicePath + deviceId;
    assert r[..|base|] == base;
    assert r[|base|..|base| + |DevicePath|] == DevicePath;
    assert r[|base| + |DevicePath|..] == deviceId;
    r
  }

  /**
   * With no base URL configured (unset or empty), the browser requests the very
   * URL the relay requests upstream for the same accepted device id.
   */
  lemma SameUpstreamAsRelay(configured: Option<string>, deviceId: string, reply: HttpReply)
    requires !Present(configured) && deviceId != ""
    ensures RoomAlertRelay.Handle(RoomAlertRelay.One(deviceId), reply).upstreamUrl ==
              Some(RequestUrl(BaseUrl(configured), deviceId))
  {
  }

  /** Two devices never share a request URL under the same base. */
  lemma RequestUrlInjective(base: string, a: string, b: string)
    requires RequestUrl(base, a) == RequestUrl(base, b)
    ensures a == b
  {
    var n := |base| + |DevicePath|;
    calc {
      a;
      RequestUrl(base, a)[n..];
      RequestUrl(base, b)[n..];
      b;
    }
  }

  /** The outcome of a search predicate on one entry: true, false, or a TypeError. */
  datatype Test = Yes | No | Throws

  /** Which of the two searches. */
  datatype Quantity = Temperature | Humidity

  /** The word the lower-cased `name` is searched for. */
  function Word(q: Quantity): string
  {
    match q
    case Temperature => "temp"
    case Humidity => "humidity"
  }

  /** `o.key === value` for a string value: only that very string matches. */
  predicate FieldIs(fields: map<string, Json>, key: string, value: string)
  {
    Field(fields, key) == Some(JStr(value))
  }

  /**
   * `s.name?.toLowerCase().includes(word)`: an absent or null name is undefined
   * (falsy); a string is lower-cased and searched; any other name has no
   * `toLowerCase` to call, so the call throws.
   */
  function NameMentions(fields: map<string, Json>, word: string): Test
  {
    match Field(fields, "name")
    case None => No
    case Some(JNull) => No
    case Some(JStr(n)) => if Contains(Lower(n), word) then Yes else No
    case Some(_) => Throws
  }

  /** The unit and type alternatives of each search. */
  predicate UnitOrTypeMatches(q: Quantity, fields: map<string, Json>)
  {
    match q
    case Temperature =>
      FieldIs(fields, "unit", "\U{B0}F") || FieldIs(fields, "unit", "\U{B0}C") || FieldIs(fields, "type", "temperature")
    case Humidity =>
      FieldIs(fields, "unit", "%") || FieldIs(fields, "type", "humidity")
  }

  /**
   * One search's predicate on one array entry, evaluated left to right with
   * short-circuit `||`: `null.name` throws; a primitive or an array has no
   * `name`, `unit` or `type`, so it never matches.
   */
  function Matches(q: Quantity, e: Json): (t: Test)
    ensures t == Yes ==> e.JObj?
    ensures t == Throws <==> e.JNull? || (e.JObj? && NameMentions(e.fields, Word(q)) == Throws)
  {
    match e
    case JNull => Throws
    case JObj(fields) =>
      (match NameMentions(fields, Word(q))
       case Throws => Throws
       case Yes => Yes
       case No => if UnitOrTypeMatches(q, fields) then Yes else No)
    case _ => No
  }

  /** No entry before `n` is decided: each of them is a plain no. */
  predicate NoneBefore(entries: seq<Json>, q: Quantity, n: int)
    requires n <= |entries|
  {
    forall j :: 0 <= j < n ==> Matches(q, entries[j]) == No
  }

  /** The index at which `Array.find` stops: the first entry that is not a plain no, or the end. */
  function Stop(entries: seq<Json>, q: Quantity): (n: nat)
    ensures n <= |entries|
    ensures NoneBefore(entries, q, n)
    ensures n < |entries| ==> Matches(q, entries[n]) != No
  {
    if entries == [] then 0
    else if Matches(q, entries[0]) != No then 0
    else 1 + Stop(entries[1..], q)
  }

  /** What `Array.find` does with a predicate that may throw. */
  datatype Search = Found(entry: Json) | Absent | Raised

  function Find(entries: seq<Json>, q: Quantity): (r: Search)
    ensures r.Absent? <==> NoneBefore(entries, q, |entries|)
    ensures r.Found? ==> exists i :: 0 <= i < |entries| && entries[i] == r.entry &&
                                   Matches(q, entries[i]) == Yes && NoneBefore(entries, q, i)
    ensures r.Raised? ==> exists i :: 0 <= i < |entries| &&
                                    Matches(q, entries[i]) == Throws && NoneBefore(entries, q, i)
  {
    var n := Stop(entries, q);
    if n == |entries| then Absent
    else if Matches(q, entries[n]) == Yes then Found(entries[n])
    else Raised
  }

  /**
   * `find` returns the FIRST entry in array order that matches, provided every
   * entry before it is a plain no; an earlier throwing entry raises instead.
   */
  lemma FindIsFirstMatch(entries: seq<Json>, q: Quantity, i: int)
    requires 0 <= i < |entries| && NoneBefore(entries, q, i)
    ensures Matches(q, entries[i]) == Yes ==> Find(entries, q) == Found(entries[i])
    ensures Matches(q, entries[i]) == Throws ==> Find(entries, q) == Raised
  {
  }

  /** The search finds nothing exactly when every entry is a plain no. */
  lemma FindAbsent(entries: seq<Json>, q: Quantity)
    ensures Find(entries, q) == Absent <==> NoneBefore(entries, q, |entries|)
  {
  }

  /** A found entry is a matching object of the array. */
  lemma FindFound(entries: seq<Json>, q: Quantity)
    ensures Find(entries, q).Found? ==>
              Find(entries, q).entry in entries && Matches(q, Find(entries, q).entry) == Yes &&
              Find(entries, q).entry.JObj?
  {
  }

  /** `entry.value`, undefined when absent. */
  function ValueOf(e: Json): Option<Json>
  {
    if e.JObj? then Field(e.fields, "value") else None
  }

  /** `data.timestamp || data.last_updated || Date.now()`, the argument given to `new Date`. */
  function TimestampArg(data: map<string, Json>, now: int): DateArg
  {
    if Truthy(Field(data, "timestamp")) then FromField(data["timestamp"])
    else if Truthy(Field(data, "last_updated")) then FromField(data["last_updated"])
    else FromClock(now)
  }

  /** `sensorName || data.name || 'Room Alert Device'`. */
  function DeviceName(hint: Option<string>, data: map<string, Json>): Json
  {
    if Present(hint) then JStr(hint.value)
    else if Truthy(Field(data, "name")) then data["name"]
    else JStr(DefaultDeviceName)
  }

  /** The `sensors` array of a successful, parsed, object-shaped response, if there is one. */
  function SensorsOf(reply: HttpReply): Option<seq<Json>>
  {
    if reply.Reply? && IsOk(reply.status) && reply.body.Some? && reply.body.value.JObj? then
      match Field(reply.body.value.fields, "sensors")
      case Some(JArr(entries)) => Some(entries)
      case _ => None
    else None
  }

  /**
   * `fetchSensorData`, with the outcome of the `fetch` of `RequestUrl(base,
   * deviceId)` handed in as `reply`, `parseFloat` as a parameter and the clock's
   * current milliseconds as `now`. Every failure is caught and becomes None.
   */
  function FetchSensorData(deviceId: string, hint: Option<string>, reply: HttpReply,
                           parseFloat: Option<Json> -> Num, now: int): (r: Option<RoomAlertData>)
    ensures r.Some? <==>
              SensorsOf(reply).Some? &&
              Find(SensorsOf(reply).value, Temperature).Found? &&
              Find(SensorsOf(reply).value, Humidity).Found?
    ensures r.Some? ==>
              var entries := SensorsOf(reply).value;
              && r.value.deviceId == deviceId
              && r.value.temperature == parseFloat(ValueOf(Find(entries, Temperature).entry))
              && r.value.humidity == parseFloat(ValueOf(Find(entries, Humidity).entry))
  {
    match SensorsOf(reply)
    case None => None
    case Some(entries) =>
      var t := Find(entries, Temperature);
      var h := Find(entries, Humidity);
      if t.Found? && h.Found? then
        var data := reply.body.value.fields;
        Some(RoomAlertData(parseFloat(ValueOf(t.entry)), parseFloat(ValueOf(h.entry)),
                           TimestampArg(data, now), deviceId, DeviceName(hint, data)))
      else None
  }

  /**
   * The fallbacks of a reading: the timestamp is the response's `timestamp` if
   * truthy, else its `last_updated` if truthy, else the clock; the sensor name is
   * the caller's hint if non-empty, else the response's `name` if truthy, else
   * the fixed device name.
   */
  lemma ReadingFallbacks(deviceId: string, hint: Option<string>, reply: HttpReply,
                         parseFloat: Option<Json> -> Num, now: int)
    ensures var r := FetchSensorData(deviceId, hint, reply, parseFloat, now);
            r.Some? ==>
              var data := reply.body.value.fields;
              && (Truthy(Field(data, "timestamp")) ==> r.value.timestamp == FromField(data["timestamp"]))
              && (!Truthy(Field(data, "timestamp")) && Truthy(Field(data, "last_updated")) ==>
                    r.value.timestamp == FromField(data["last_updated"]))
              && (!Truthy(Field(data, "timestamp")) && !Truthy(Field(data, "last_updated")) ==>
                    r.value.timestamp == FromClock(now))
              && (Present(hint) ==> r.value.sensorName == JStr(hint.value))
              && (!Present(hint) && Truthy(Field(data, "name")) ==> r.value.sensorName == data["name"])
              && (!Present(hint) && !Truthy(Field(data, "name")) ==>
                    r.value.sensorName == JStr(DefaultDeviceName))
  {
  }

  /** A failed request, an error status or an unparsable body gives no reading. */
  lemma FailedExchangeGivesNull(deviceId: string, hint: Option<string>, reply: HttpReply,
                                parseFloat: Option<Json> -> Num, now: int)
    requires reply.NetworkFailure? || !IsOk(reply.status) || reply.body.None?
    ensures FetchSensorData(deviceId, hint, reply, parseFloat, now) == None
  {
  }

  /** A body without a `sensors` array gives no reading, whatever else it holds. */
  lemma NoSensorsArrayGivesNull(deviceId: string, hint: Option<string>, status: nat,
                                data: map<string, Json>, parseFloat: Option<Json> -> Num, now: int)
    requires !("sensors" in data && data["sensors"].JArr?)
    ensures FetchSensorData(deviceId, hint, Reply(status, Some(JObj(data))), parseFloat, now) == None
  {
  }

  /** Any entry before the wanted ones whose `name` is neither a string nor null aborts the read. */
  lemma ThrowingEntryGivesNull(deviceId: string, hint: Option<string>, reply: HttpReply,
                               parseFloat: Option<Json> -> Num, now: int, i: int)
    requires SensorsOf(reply).Some? && 0 <= i < |SensorsOf(reply).value|
    requires NoneBefore(SensorsOf(reply).value, Temperature, i)
    requires Matches(Temperature, SensorsOf(reply).value[i]) == Throws
    ensures FetchSensorData(deviceId, hint, reply, parseFloat, now) == None
  {
    FindIsFirstMatch(SensorsOf(reply).value, Temperature, i);
  }

  /**
   * Only a missing entry is rejected: matched entries whose values do not parse
   * still give a reading, with NaN for both quantities.
   */
  lemma NaNValuesStillRead(deviceId: string, hint: Option<string>, status: nat, data: map<string, Json>,
                           parseFloat: Option<Json> -> Num, now: int)
    requires IsOk(status)
    requires "sensors" in data && data["sensors"] == JArr([
      JObj(map["unit" := JStr("\U{B0}F"), "value" := JStr("n/a")]),
      JObj(map["unit" := JStr("%"), "value" := JStr("n/a")])])
    requires parseFloat(Some(JStr("n/a"))) == NaN
    ensures var r := FetchSensorData(deviceId, hint, Reply(status, Some(JObj(data))), parseFloat, now);
            r.Some? && r.value.temperature == NaN && r.value.humidity == NaN
  {
    var entries := data["sensors"].items;
    assert Matches(Temperature, entries[0]) == Yes;
    FindIsFirstMatch(entries, Temperature, 0);
    assert Matches(Humidity, entries[0]) == No;
    assert Matches(Humidity, entries[1]) == Yes;
    FindIsFirstMatch(entries, Humidity, 1);
  }

  /**
   * The two searches are independent: a single entry that satisfies both
   * predicates answers both, so temperature and humidity come from one value.
   */
  lemma OneEntryAnswersBoth(deviceId: string, hint: Option<string>, status: nat, data: map<string, Json>,
                            parseFloat: Option<Json> -> Num, now: int, v: Json)
    requires IsOk(status)
    requires "sensors" in data && data["sensors"] == JArr([
      JObj(map["type" := JStr("temperature"), "unit" := JStr("%"), "value" := v])])
    ensures var r := FetchSensorData(deviceId, hint, Reply(status, Some(JObj(data))), parseFloat, now);
            r.Some? && r.value.temperature == r.value.humidity == parseFloat(Some(v))
  {
    var entries := data["sensors"].items;
    assert Matches(Temperature, entries[0]) == Yes;
    assert Matches(Humidity, entries[0]) == Yes;
    FindIsFirstMatch(entries, Temperature, 0);
    FindIsFirstMatch(entries, Humidity, 0);
  }

  /**
   * The name search ignores case: for every entry and either search, a name
   * decides exactly as its lower-cased form does.
   */
  lemma NameSearchIgnoresCase(q: Quantity, fields: map<string, Json>, n: string)
    ensures Matches(q, JObj(fields["name" := JStr(n)])) == Matches(q, JObj(fields["name" := JStr(Lower(n))]))
  {
    LowerIdempotent(n);
    assert NameMentions(fields["name" := JStr(n)], Word(q)) == NameMentions(fields["name" := JStr(Lower(n))], Word(q));
    assert UnitOrTypeMatches(q, fields["name" := JStr(n)]) == UnitOrTypeMatches(q, fields["name" := JStr(Lower(n))]);
  }

  /** So a sensor called "Room TEMP" is a temperature entry. */
  lemma UpperCaseNameFound()
    ensures Matches(Temperature, JObj(map["name" := JStr("Room TEMP")])) == Yes
  {
    var lowered := Lower("Room TEMP");
    assert lowered[5..9] == "temp";
    assert OccursAt(lowered, "temp", 5);
  }
}
