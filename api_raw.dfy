/** The serverless router (api/raw.ts): a request without `data` is refused, a Roblox client is
    served the decoded script as plain text, and anyone else is redirected to the front end,
    whose password screen reads the same `data` parameter. */
module ApiRaw {
  import opened Types
  import opened Strings
  import opened Js
  import opened Http
  import Crypto

  /** `request.query.data`: missing, one value, or the array a repeated parameter gives. */
  datatype QueryValue = Absent | Single(value: string) | Several(items: seq<string>)

  /** The parts of the request the handler reads; a header is `None` when it is absent. */
  datatype Request = Request(
    data: QueryValue,
    userAgent: Option<string>,
    forwardedProto: Option<string>,
    host: Option<string>)

  const MissingText: string := "Missing data parameter"
  const InvalidText: string := "-- Error: Invalid Payload or Decryption Failed"
  const TextHeader: (string, string) := ("Content-Type", "text/plain; charset=utf-8")

  /** `!data`: an array, even an empty one, is truthy. */
  predicate DataMissing(d: QueryValue) {
    d.Absent? || d == Single("")
  }

  /** The handler's Roblox test on the User-Agent. */
  predicate IsRoblox(ua: string) {
    Contains(ua, "Roblox") || Contains(ua, "RobloxApp") || Contains(ua, "RobloxStudio")
  }

  /** The three substring tests amount to the first one. */
  lemma IsRobloxIffContains(ua: string)
    ensures IsRoblox(ua) <==> Contains(ua, "Roblox")
  {
    Crypto.RobloxAppIsRoblox(ua);
    if Contains(ua, "RobloxStudio") {
      assert "RobloxStudio" == "Roblox" + "Studio";
      ContainsPrefixOfNeedle(ua, "Roblox", "Studio");
    }
  }

  /** `Array.isArray(data) ? data[0] : data`; `None` is the `undefined` of an empty array. */
  function FirstValue(d: QueryValue): Option<string> {
    match d
    case Absent => None
    case Single(s) => Some(s)
    case Several(items) => if items == [] then None else Some(items[0])
  }

  /** The text `${data}` gives: an array is joined with commas. */
  function DataText(d: QueryValue): string {
    match d
    case Absent => "undefined"
    case Single(s) => s
    case Several(items) => Join(items, ",")
  }

  /** The target of the browser branch's redirect; a missing host header prints as
      "undefined". */
  function RedirectTarget(req: Request): string {
    OrString(req.forwardedProto, "https") + "://" + req.host.GetOr("undefined")
      + "/?data=" + DataText(req.data)
  }

  /** The value the inner decodePayload returns for `safeBase64`: the URL-safe reversal and the
      padding, but neither the empty check nor the `?data=` stripping of the browser decoder. */
  function HelperDecoded(rt: Runtime, safeBase64: string): (r: Option<Value>)
    ensures safeBase64 != "" && !StartsWith(safeBase64, Crypto.DataPrefix) ==>
      r == Crypto.Decoded(rt, safeBase64)
    ensures StartsWith(safeBase64, Crypto.DataPrefix) ==>
      r == Crypto.DecodeStandard(rt, Crypto.Pad(Crypto.FromUrlSafe(safeBase64)))
    ensures safeBase64 == "" ==> r == Crypto.DecodeStandard(rt, "")
  {
    HelperInput(safeBase64);
    Crypto.DecodeStandard(rt, Crypto.Pad(Crypto.FromUrlSafe(safeBase64)))
  }

  /** What the helper hands to atob, against what the browser decoder hands it. */
  lemma HelperInput(safeBase64: string)
    ensures safeBase64 == "" ==> Crypto.Pad(Crypto.FromUrlSafe(safeBase64)) == ""
    ensures !StartsWith(safeBase64, Crypto.DataPrefix) ==>
      Crypto.StripDataPrefix(safeBase64) == safeBase64
  {
  }

  /** The handler's inner decodePayload helper. */
  method DecodePayload(rt: Runtime, safeBase64: string) returns (r: Option<Value>)
    ensures r == HelperDecoded(rt, safeBase64)
  {
    var base64 := Crypto.FromUrlSafe(safeBase64);
    ghost var base := base64;
    ghost var added := 0;
    while |base64| % 4 != 0
      invariant added <= (4 - |base| % 4) % 4
      invariant base64 == base + Repeat('=', added)
      decreases 3 - added
    {
      Crypto.PadStep(base, added);
      base64 := base64 + "=";
      added := added + 1;
    }
    Crypto.PadDone(base, added, base64);
    r := Crypto.DecodeStandard(rt, base64);
  }

  /** What the Roblox branch sends for a decode result: `payload && payload.code` decides. */
  function ServeDecoded(payload: Option<Value>): (r: Response)
    ensures r.Reply? && (r.status == 200 || r.status == 500)
    ensures r.status == 200 <==>
      payload.Some? && Truthy(payload.value) && TruthyLookup(Member(payload.value, "code"))
    ensures r.status == 200 ==> r == Reply(200, [TextHeader], BodyOf(Member(payload.value, "code").value))
    ensures r.status == 500 ==> r == Reply(500, [], Text(InvalidText))
  {
    if payload.Some? && Truthy(payload.value) && TruthyLookup(Member(payload.value, "code")) then
      Reply(200, [TextHeader], BodyOf(Member(payload.value, "code").value))
    else
      Reply(500, [], Text(InvalidText))
  }

  /** The response the handler sends for `req`. */
  function Route(rt: Runtime, req: Request): (r: Response)
    ensures !r.Forward?
    ensures r.Reply? ==> r.status in {200, 400, 500}
    ensures r.Reply? && r.status == 400 <==> DataMissing(req.data)
    ensures r.Redirect? <==> !DataMissing(req.data) && !Contains(OrString(req.userAgent, ""), "Roblox")
    ensures r.Redirect? ==> r == Redirect(307, RedirectTarget(req))
    ensures !DataMissing(req.data) && Contains(OrString(req.userAgent, ""), "Roblox") ==>
      r == ServeDecoded(if FirstValue(req.data).Some? then HelperDecoded(rt, FirstValue(req.data).value) else None)
  {
    IsRobloxIffContains(OrString(req.userAgent, ""));
    if DataMissing(req.data) then Reply(400, [], Text(MissingText))
    else if IsRoblox(OrString(req.userAgent, "")) then
      ServeDecoded(match FirstValue(req.data)
                   case None => None
                   case Some(s) => HelperDecoded(rt, s))
    else Redirect(307, RedirectTarget(req))
  }

  /** The Vercel response object, as far as the handler drives it. `sent` is what was finally
      sent, if anything. */
  class ServerResponse {
    var statusCode: int
    var headers: seq<(string, string)>
    var sent: Option<Response>

    /** A fresh response: status 200, no headers, nothing sent. */
    predicate Fresh()
      reads this
    {
      statusCode == 200 && headers == [] && sent.None?
    }

    constructor()
      ensures Fresh()
    {
      statusCode := 200;
      headers := [];
      sent := None;
    }

    method SetHeader(name: string, value: string)
      modifies this
      ensures headers == old(headers) + [(name, value)]
      ensures statusCode == old(statusCode) && sent == old(sent)
    {
      headers := headers + [(name, value)];
    }

    /** `status(code).send(body)`. */
    method StatusSend(code: int, body: Body)
      modifies this
      ensures statusCode == code && headers == old(headers)
      ensures sent == Some(Reply(code, old(headers), body))
    {
      statusCode := code;
      sent := Some(Reply(code, headers, body));
    }

    method SendRedirect(code: int, location: string)
      modifies this
      ensures statusCode == code && headers == old(headers)
      ensures sent == Some(Redirect(code, location))
    {
      statusCode := code;
      sent := Some(Redirect(code, location));
    }
  }

  /** `handler(request, response)`: drives `res` to send `Route(rt, req)`. */
  method Handler(rt: Runtime, req: Request, res: ServerResponse)
    requires res.Fresh()
    modifies res
    ensures res.sent == Some(Route(rt, req))
  {
    var userAgent := OrString(req.userAgent, "");
    if DataMissing(req.data) {
      assert Route(rt, req) == Reply(400, [], Text(MissingText));
      res.StatusSend(400, Text(MissingText));
      return;
    }
    var isRoblox := IsRoblox(userAgent);
    if isRoblox {
      var payloadStr := FirstValue(req.data);
      var payload: Option<Value> := None;
      if payloadStr.Some? {
        payload := DecodePayload(rt, payloadStr.value);
      }
      assert Route(rt, req) == ServeDecoded(payload);
      if payload.Some? && Truthy(payload.value) && TruthyLookup(Member(payload.value, "code")) {
        res.SetHeader(TextHeader.0, TextHeader.1);
        assert res.headers == [TextHeader];
        res.StatusSend(200, BodyOf(Member(payload.value, "code").value));
        assert res.sent == Some(ServeDecoded(payload));
      } else {
        res.StatusSend(500, Text(InvalidText));
        assert res.sent == Some(ServeDecoded(payload));
      }
    } else {
      assert Route(rt, req) == Redirect(307, RedirectTarget(req));
      res.SendRedirect(307, RedirectTarget(req));
    }
  }

  /** A missing or empty `data` is refused with 400, whatever the User-Agent, and nothing else
      is answered with 400. */
  lemma MissingDataIff400(rt: Runtime, req: Request)
    ensures DataMissing(req.data) ==> Route(rt, req) == Reply(400, [], Text(MissingText))
    ensures Route(rt, req).Reply? && Route(rt, req).status == 400 ==> DataMissing(req.data)
  {
  }

  /** Without "Roblox" in the User-Agent a request with data is redirected, and no decoding takes
      place: the runtime's functions do not matter. */
  lemma BrowserRedirected(rt1: Runtime, rt2: Runtime, req: Request)
    requires !DataMissing(req.data) && !Contains(OrString(req.userAgent, ""), "Roblox")
    ensures Route(rt1, req) == Route(rt2, req) == Redirect(307, RedirectTarget(req))
  {
    IsRobloxIffContains(OrString(req.userAgent, ""));
  }

  /** Of an array, only the first element is decoded; an empty array cannot be decoded. */
  lemma FirstElementDecoded(rt: Runtime, s: string, rest: seq<string>, req: Request)
    requires s != "" && req.data == Several([s] + rest)
    requires Contains(OrString(req.userAgent, ""), "Roblox")
    ensures Route(rt, req) == Route(rt, req.(data := Single(s)))
  {
    IsRobloxIffContains(OrString(req.userAgent, ""));
    assert ([s] + rest)[0] == s;
  }

  lemma EmptyArrayFails(rt: Runtime, req: Request)
    requires req.data == Several([]) && Contains(OrString(req.userAgent, ""), "Roblox")
    ensures Route(rt, req) == Reply(500, [], Text(InvalidText))
  {
    IsRobloxIffContains(OrString(req.userAgent, ""));
  }

  /** The helper decoder agrees with the browser decoder on every token encodePayload makes. */
  lemma HelperAgreesOnTokens(rt: Runtime, p: RawPayload)
    requires Crypto.EncodePayload(rt, p) != ""
    ensures HelperDecoded(rt, Crypto.EncodePayload(rt, p)) == Crypto.Decoded(rt, Crypto.EncodePayload(rt, p))
  {
    Crypto.TokenHasNoPrefix(rt, p);
  }

  /** A Roblox client given a link's token is served exactly the script's text when the script
      is not empty, and 500 when it is. */
  lemma RobloxServedScript(rt: Runtime, p: RawPayload, req: Request)
    requires Lawful(rt) && Crypto.EncodePayload(rt, p) != ""
    requires req.data == Single(Crypto.EncodePayload(rt, p))
    requires Contains(OrString(req.userAgent, ""), "Roblox")
    ensures p.code != "" ==> Route(rt, req) == Reply(200, [TextHeader], Text(p.code))
    ensures p.code == "" ==> Route(rt, req) == Reply(500, [], Text(InvalidText))
  {
    var token := Crypto.EncodePayload(rt, p);
    RobloxRoute(rt, req, token);
    HelperAgreesOnTokens(rt, p);
    Crypto.RoundTrip(rt, p);
    ServeRecord(p);
  }

  /** A Roblox request with one non-empty value is answered by decoding that value. */
  lemma RobloxRoute(rt: Runtime, req: Request, s: string)
    requires s != "" && req.data == Single(s) && Contains(OrString(req.userAgent, ""), "Roblox")
    ensures Route(rt, req) == ServeDecoded(HelperDecoded(rt, s))
  {
  }

  /** The answer for a decoded payload record: its script, unless the script is empty. */
  lemma ServeRecord(p: RawPayload)
    ensures p.code != "" ==> ServeDecoded(Some(ToValue(p))) == Reply(200, [TextHeader], Text(p.code))
    ensures p.code == "" ==> ServeDecoded(Some(ToValue(p))) == Reply(500, [], Text(InvalidText))
  {
    ToValueFields(p);
  }
}
