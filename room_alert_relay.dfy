/**
 * The serverless relay (api/room-alert.ts): it validates the `deviceId` query
 * parameter, fetches the device's public page from the Room Alert host, and
 * answers with a status and a JSON body. The upstream exchange is a parameter.
 */
module RoomAlertRelay {
  import opened Types
  import opened Text

  const UpstreamHost := "https://account.roomalert.com"
  const DevicePath := "/public/device/"
  const MissingIdError := "deviceId is required"
  const UpstreamErrorPrefix := "Room Alert API error: "
  const FetchFailedError := "Failed to fetch Room Alert data"

  /** A query parameter: absent, given once, or repeated (then an array). */
  datatype QueryParam = Absent | One(value: string) | Many(values: seq<string>)

  /**
   * The relay's answer, together with the URL it requested upstream (None when
   * it answered without a request).
   */
  datatype RelayResponse = RelayResponse(upstreamUrl: Option<string>, status: nat, body: Json)

  function ErrorBody(message: string): Json
  {
    JObj(map["error" := JStr(message)])
  }

  /** `!deviceId || typeof deviceId !== 'string'`: anything but a non-empty single string. */
  predicate Rejected(q: QueryParam)
  {
    !(q.One? && q.value != "")
  }

  /**
   * The handler. `reply` is the outcome of the upstream `fetch`, consulted only
   * when the request is made: a network failure and a body that `json()` cannot
   * parse are both caught and answered with 500.
   */
  function Handle(q: QueryParam, reply: HttpReply): (r: RelayResponse)
    ensures Rejected(q) <==> r.upstreamUrl.None?
    ensures Rejected(q) ==> r.status == 400 && r.body == ErrorBody(MissingIdError)
    ensures !Rejected(q) ==> r.upstreamUrl == Some(UpstreamHost + DevicePath + q.value)
    ensures !Rejected(q) && reply.Reply? && !IsOk(reply.status) ==>
              r.status == reply.status && r.body == ErrorBody(UpstreamErrorPrefix + NatToString(reply.status))
    ensures !Rejected(q) && reply.Reply? && IsOk(reply.status) && reply.body.Some? ==>
              r.status == 200 && r.body == reply.body.value
    ensures !Rejected(q) && (reply.NetworkFailure? || (IsOk(reply.status) && reply.body.None?)) ==>
              r.status == 500 && r.body == ErrorBody(FetchFailedError)
  {
    if Rejected(q) then
      RelayResponse(None, 400, ErrorBody(MissingIdError))
    else
      var url := UpstreamHost + DevicePath + q.value;
      match reply
      case NetworkFailure => RelayResponse(Some(url), 500, ErrorBody(FetchFailedError))
      case Reply(status, body) =>
        if !IsOk(status) then
          RelayResponse(Some(url), status, ErrorBody(UpstreamErrorPrefix + NatToString(status)))
        else if body.None? then
          RelayResponse(Some(url), 500, ErrorBody(FetchFailedError))
        else
          RelayResponse(Some(url), 200, body.value)
  }

  /**
   * The relay answers with a 2xx status exactly when the device id was accepted,
   * the upstream answered 2xx, and its body parsed; the body is then forwarded
   * unchanged.
   */
  lemma SuccessOnlyOnUpstreamSuccess(q: QueryParam, reply: HttpReply)
    ensures IsOk(Handle(q, reply).status) <==>
              !Rejected(q) && reply.Reply? && IsOk(reply.status) && reply.body.Some?
  {
  }

  /** The decimal status at the end of an upstream error message reads back as that status. */
  lemma UpstreamErrorNamesStatus(q: QueryParam, status: nat)
    requires !Rejected(q) && !IsOk(status)
    ensures var msg := Handle(q, Reply(status, None)).body.fields["error"].s;
            && msg[..|UpstreamErrorPrefix|] == UpstreamErrorPrefix
            && var digits := msg[|UpstreamErrorPrefix|..];
            && (forall i :: 0 <= i < |digits| ==> '0' <= digits[i] <= '9')
            && DigitsValue(digits) == status
  {
    var msg := UpstreamErrorPrefix + NatToString(status);
    assert Handle(q, Reply(status, None)).body.fields["error"].s == msg;
    assert msg[..|UpstreamErrorPrefix|] == UpstreamErrorPrefix;
    assert msg[|UpstreamErrorPrefix|..] == NatToString(status);
  }

  /** A repeated `deviceId` arrives as an array and is refused like a missing one. */
  lemma RepeatedIdIsRefused(values: seq<string>, reply: HttpReply)
    ensures Handle(Many(values), reply) == RelayResponse(None, 400, ErrorBody(MissingIdError))
  {
  }
}
