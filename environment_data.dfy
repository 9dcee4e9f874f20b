/**
 * The live sensor widget (src/components/EnvironmentData.tsx): four state cells
 * written by the subscription and by the poll callback, the render decision that
 * reads them, the age label of the last update, and the colour thresholds.
 * Polling itself (src/utils/roomAlertService.ts, `startPolling`) is modelled only
 * as the sequence of outcomes its ticks deliver to the callback.
 */
module EnvironmentData {
  import opened Types
  import opened Text
  import PlantHelpers

  const FetchError := "Failed to fetch sensor data"

  /** The four state cells: the last reading, the loading flag, the error text, the update time. */
  datatype WidgetState = WidgetState(
    data: Option<RoomAlertData>,
    isLoading: bool,
    error: Option<string>,
    lastUpdate: Option<int>)

  /** The cells on mount: loading, with nothing read yet. */
  const Mounted := WidgetState(None, true, None, None)

  /**
   * The poll callback: loading ends; a reading replaces the data, clears the
   * error and stamps the update time; a failure sets the error and keeps the
   * last reading and its time.
   */
  function AfterPoll(w: WidgetState, reading: Option<RoomAlertData>, now: int): (r: WidgetState)
    ensures !r.isLoading
    ensures reading.Some? ==> r.data == reading && r.error == None && r.lastUpdate == Some(now)
    ensures reading.None? ==> r.data == w.data && r.error == Some(FetchError) && r.lastUpdate == w.lastUpdate
  {
    if reading.Some? then WidgetState(reading, false, None, Some(now))
    else w.(isLoading := false, error := Some(FetchError))
  }

  /** What the widget shows. */
  datatype RenderMode =
    | NoDevice
    | Spinner
    | ErrorNotice(message: string)
    | Blank
    | Readings(reading: RoomAlertData, temperatureClass: string, humidityClass: string)

  /** `getTemperatureColor`, declared locally in the widget. */
  function TemperatureColor(temp: Num): (c: string)
    ensures c == PlantHelpers.Blue <==> PlantHelpers.Below(temp, 60.0)
    ensures c == PlantHelpers.Red <==> PlantHelpers.Above(temp, 80.0)
    ensures c == PlantHelpers.Green <==> !PlantHelpers.Below(temp, 60.0) && !PlantHelpers.Above(temp, 80.0)
  {
    if PlantHelpers.Below(temp, 60.0) then PlantHelpers.Blue
    else if PlantHelpers.Above(temp, 80.0) then PlantHelpers.Red
    else PlantHelpers.Green
  }

  /** `getHumidityColor`, declared locally in the widget. */
  function HumidityColor(humidity: Num): (c: string)
    ensures c == PlantHelpers.Orange <==> PlantHelpers.Below(humidity, 40.0)
    ensures c == PlantHelpers.Blue <==> PlantHelpers.Above(humidity, 70.0)
    ensures c == PlantHelpers.Green <==> !PlantHelpers.Below(humidity, 40.0) && !PlantHelpers.Above(humidity, 70.0)
  {
    if PlantHelpers.Below(humidity, 40.0) then PlantHelpers.Orange
    else if PlantHelpers.Above(humidity, 70.0) then PlantHelpers.Blue
    else PlantHelpers.Green
  }

  /** The widget's own thresholds agree with the plant helpers' for every reading. */
  lemma ColoursAgreeWithPlantHelpers(x: Num)
    ensures TemperatureColor(x) == PlantHelpers.TempColor(x)
    ensures HumidityColor(x) == PlantHelpers.HumidityColor(x)
  {
  }

  /**
   * The render decision, in the order of its early returns: no device, loading
   * with no data, an error with no data, no data, and otherwise the readings.
   */
  function Render(deviceId: Option<string>, w: WidgetState): (m: RenderMode)
    ensures m.NoDevice? <==> !Present(deviceId)
    ensures m.Readings? <==> Present(deviceId) && w.data.Some?
    ensures m.Readings? ==> m.reading == w.data.value
    ensures m.Readings? ==> m.temperatureClass == TemperatureColor(m.reading.temperature)
    ensures m.Readings? ==> m.humidityClass == HumidityColor(m.reading.humidity)
    ensures m.Spinner? <==> Present(deviceId) && w.isLoading && w.data.None?
    ensures m.ErrorNotice? <==>
              Present(deviceId) && !w.isLoading && w.data.None? && w.error.Some? && w.error.value != ""
    ensures m.ErrorNotice? ==> m.message == w.error.value
    ensures m.Blank? <==> Present(deviceId) && !w.isLoading && w.data.None? && !(w.error.Some? && w.error.value != "")
  {
    if !Present(deviceId) then NoDevice
    else if w.isLoading && w.data.None? then Spinner
    else if w.error.Some? && w.error.value != "" && w.data.None? then ErrorNotice(w.error.value)
    else if w.data.None? then Blank
    else Readings(w.data.value, TemperatureColor(w.data.value.temperature), HumidityColor(w.data.value.humidity))
  }

  /** A failed poll after a successful one keeps showing the last reading. */
  lemma FailureKeepsLastReading(deviceId: Option<string>, w: WidgetState, now: int)
    requires Present(deviceId) && w.data.Some?
    ensures Render(deviceId, AfterPoll(w, None, now)) == Render(deviceId, w.(isLoading := false))
    ensures Render(deviceId, AfterPoll(w, None, now)).Readings?
  {
  }

  /** A failed poll with nothing read yet shows the error text. */
  lemma FirstFailureShowsError(deviceId: Option<string>, now: int)
    requires Present(deviceId)
    ensures Render(deviceId, AfterPoll(Mounted, None, now)) == ErrorNotice(FetchError)
  {
  }

  /**
   * What a tick of the poller delivers to the callback: a fetch outcome, or
   * nothing because the tick's promise rejected before the callback ran.
   */
  datatype Tick = Delivered(reading: Option<RoomAlertData>, now: int) | Rejected

  /** The cells after the callback has seen each tick in turn. */
  function AfterTicks(w: WidgetState, ticks: seq<Tick>): WidgetState
    decreases |ticks|
  {
    if ticks == [] then w
    else
      var next := match ticks[0]
        case Delivered(reading, now) => AfterPoll(w, reading, now)
        case Rejected => w;
      AfterTicks(next, ticks[1..])
  }

  /** A value bound to a name in the poller's scope: the device id string, or a value the fetch does not use. */
  datatype Value = Str(s: string) | Unused

  /**
   * The names `fetchData` can see in `startPolling`: its four parameters and the
   * mock flag. Only the device id matters to a fetch.
   */
  function PollingScope(deviceId: string): map<string, Value>
  {
    map["deviceId" := Str(deviceId), "sensorName" := Unused, "callback" := Unused,
        "intervalMs" := Unused, "useMockData" := Unused]
  }

  /**
   * One run of `fetchData` whose fetch call names the identifier `argument`
   * (the mock and the live branch alike). Reading an identifier that is not in
   * scope throws a ReferenceError, which rejects the tick's promise before any
   * fetch and before the callback; otherwise the fetch, `answer`, gets the
   * identifier's value and the callback its outcome.
   */
  function PollTick(scope: map<string, Value>, argument: string, answer: Value -> Option<RoomAlertData>, now: int): (t: Tick)
    ensures t.Rejected? <==> argument !in scope
    ensures t.Delivered? ==> t.reading == answer(scope[argument]) && t.now == now
  {
    if argument in scope then Delivered(answer(scope[argument]), now) else Rejected
  }

  /** The identifier the fetch calls name as written (src/utils/roomAlertService.ts:136-137), and as intended. */
  const WrittenArgument := "macAddress"
  const IntendedArgument := "deviceId"

  /** As written, every tick rejects, whatever the device would answer: `macAddress` is not in scope. */
  lemma TickAsWritten(deviceId: string, answer: Value -> Option<RoomAlertData>, now: int)
    ensures PollTick(PollingScope(deviceId), WrittenArgument, answer, now) == Rejected
  {
  }

  /** As intended, a tick hands the callback the answer for the subscribed device. */
  lemma TickAsIntended(deviceId: string, answer: Value -> Option<RoomAlertData>, now: int)
    ensures PollTick(PollingScope(deviceId), IntendedArgument, answer, now) == Delivered(answer(Str(deviceId)), now)
  {
  }

  /** Ticks that all reject leave every cell as it was. */
  lemma {:induction false} RejectedTicksChangeNothing(w: WidgetState, ticks: seq<Tick>)
    requires forall i :: 0 <= i < |ticks| ==> ticks[i].Rejected?
    ensures AfterTicks(w, ticks) == w
  {
    if ticks != [] {
      RejectedTicksChangeNothing(w, ticks[1..]);
    }
  }

  /** The ticks `startPolling` produces as written, one per answer the device would give. */
  function TicksAsWritten(deviceId: string, answers: seq<Value -> Option<RoomAlertData>>, now: int): (ts: seq<Tick>)
    ensures |ts| == |answers|
    ensures forall i :: 0 <= i < |ts| ==> ts[i].Rejected?
  {
    seq(|answers|, i requires 0 <= i < |answers| => PollTick(PollingScope(deviceId), WrittenArgument, answers[i], now))
  }

  /**
   * As written, a configured widget shows the loading spinner forever: however
   * many ticks pass and whatever the device would answer, no callback runs.
   */
  lemma PollingAsWrittenSpinsForever(deviceId: Option<string>, answers: seq<Value -> Option<RoomAlertData>>, now: int)
    requires Present(deviceId)
    ensures Render(deviceId, AfterTicks(Mounted, TicksAsWritten(deviceId.value, answers, now))) == Spinner
  {
    RejectedTicksChangeNothing(Mounted, TicksAsWritten(deviceId.value, answers, now));
  }

  /** As intended, the first tick on which the device answers shows its reading. */
  lemma PollingShowsFirstReading(deviceId: Option<string>, answer: Value -> Option<RoomAlertData>, now: int)
    requires Present(deviceId) && answer(Str(deviceId.value)).Some?
    ensures var first := PollTick(PollingScope(deviceId.value), IntendedArgument, answer, now);
            Render(deviceId, AfterTicks(Mounted, [first])) ==
              var r := answer(Str(deviceId.value)).value;
              Readings(r, TemperatureColor(r.temperature), HumidityColor(r.humidity))
  {
    var first := PollTick(PollingScope(deviceId.value), IntendedArgument, answer, now);
    assert AfterTicks(Mounted, [first]) == AfterPoll(Mounted, answer(Str(deviceId.value)), now);
  }

  /** Once a reading is held, no sequence of failures or rejections loses it or its time. */
  lemma {:induction false} ReadingSurvivesFailures(w: WidgetState, ticks: seq<Tick>)
    requires w.data.Some?
    requires forall i :: 0 <= i < |ticks| ==> ticks[i].Rejected? || ticks[i].reading.None?
    ensures AfterTicks(w, ticks).data == w.data
    ensures AfterTicks(w, ticks).lastUpdate == w.lastUpdate
    decreases |ticks|
  {
    if ticks != [] {
      var next := if ticks[0].Rejected? then w else AfterPoll(w, None, ticks[0].now);
      assert AfterTicks(w, ticks) == AfterTicks(next, ticks[1..]);
      ReadingSurvivesFailures(next, ticks[1..]);
    }
  }

  /** The cells are never in the blank combination: not loading, no data and no error. */
  predicate Settled(w: WidgetState)
  {
    w.isLoading || w.data.Some? || (w.error.Some? && w.error.value != "")
  }

  /** Every state the callback can reach from mounting is settled, so a configured widget never renders blank. */
  lemma {:induction false} NeverBlank(deviceId: Option<string>, w: WidgetState, ticks: seq<Tick>)
    requires Settled(w)
    ensures Settled(AfterTicks(w, ticks))
    ensures !Render(deviceId, AfterTicks(w, ticks)).Blank?
    decreases |ticks|
  {
    if ticks != [] {
      var next := match ticks[0]
        case Delivered(reading, now) => AfterPoll(w, reading, now)
        case Rejected => w;
      assert Settled(next);
      assert AfterTicks(w, ticks) == AfterTicks(next, ticks[1..]);
      NeverBlank(deviceId, next, ticks[1..]);
    }
  }

  /** The age label of the last update. */
  datatype Age = JustNow | MinutesAgo(minutes: nat) | HoursAgo(hours: nat) | Absolute

  /**
   * `formatTimestamp`'s bucket for an update at `updated` seen at `now` (both in
   * milliseconds): whole seconds elapsed, rounded down, under a minute is "just
   * now" (a clock that went backwards included), then whole minutes 1 to 59,
   * then whole hours 1 to 23, then an absolute date.
   */
  function AgeOf(now: int, updated: int): (a: Age)
    ensures a == JustNow <==> now - updated < 60000
    ensures a.MinutesAgo? ==>
              1 <= a.minutes <= 59 && a.minutes * 60000 <= now - updated < (a.minutes + 1) * 60000
    ensures a.HoursAgo? ==>
              1 <= a.hours <= 23 && a.hours * 3600000 <= now - updated < (a.hours + 1) * 3600000
    ensures a == Absolute <==> now - updated >= 86400000
  {
    // Math.floor of a quotient by a positive divisor is Dafny's division
    var seconds := (now - updated) / 1000;
    if seconds < 60 then JustNow
    else if seconds < 3600 then MinutesAgo(seconds / 60)
    else if seconds < 86400 then HoursAgo(seconds / 3600)
    else Absolute
  }

  /** A later look never shows a fresher label. */
  lemma AgeNeverGetsYounger(updated: int, now1: int, now2: int)
    requires now1 <= now2
    ensures AgeRank(AgeOf(now1, updated)) <= AgeRank(AgeOf(now2, updated))
  {
  }

  function AgeRank(a: Age): int
  {
    match a
    case JustNow => 0
    case MinutesAgo(m) => m
    case HoursAgo(h) => 60 * h
    case Absolute => 60 * 24
  }

  /** The label text; the absolute form is the browser's locale rendering, handed in. */
  function FormatTimestamp(now: int, updated: int, localeString: string): (s: string)
    ensures AgeOf(now, updated) == JustNow ==> s == "Just now"
    ensures AgeOf(now, updated).MinutesAgo? ==>
              s == NatToString(AgeOf(now, updated).minutes) + "m ago"
    ensures AgeOf(now, updated).HoursAgo? ==>
              s == NatToString(AgeOf(now, updated).hours) + "h ago"
    ensures AgeOf(now, updated) == Absolute ==> s == localeString
  {
    match AgeOf(now, updated)
    case JustNow => "Just now"
    case MinutesAgo(m) => NatToString(m) + "m ago"
    case HoursAgo(h) => NatToString(h) + "h ago"
    case Absolute => localeString
  }

  /** The widget's cells, written by the subscription effect and by the poll callback. */
  class Widget {
    var data: Option<RoomAlertData>
    var isLoading: bool
    var error: Option<string>
    var lastUpdate: Option<int>

    function State(): WidgetState
      reads this
    {
      WidgetState(data, isLoading, error, lastUpdate)
    }

    constructor ()
      ensures State() == Mounted
    {
      data, isLoading, error, lastUpdate := None, true, None, None;
    }

    /**
     * The subscription effect: with no device id it stops loading and starts no
     * poller; otherwise it sets loading, clears the error, keeps any earlier
     * reading, and starts polling.
     */
    method Subscribe(deviceId: Option<string>) returns (polling: bool)
      modifies this
      ensures polling <==> Present(deviceId)
      ensures !polling ==> State() == old(State()).(isLoading := false)
      ensures polling ==> State() == old(State()).(isLoading := true, error := None)
    {
      if !Present(deviceId) {
        isLoading := false;
        polling := false;
      } else {
        isLoading := true;
        error := None;
        polling := true;
      }
    }

    /** The poll callback. */
    method OnPoll(reading: Option<RoomAlertData>, now: int)
      modifies this
      ensures State() == AfterPoll(old(State()), reading, now)
    {
      isLoading := false;
      if reading.Some? {
        data := reading;
        lastUpdate := Some(now);
        error := None;
      } else {
        error := Some(FetchError);
      }
    }

    function Mode(deviceId: Option<string>): RenderMode
      reads this
    {
      Render(deviceId, State())
    }
  }
}
