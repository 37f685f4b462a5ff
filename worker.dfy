/** The edge-worker router (worker.js): a request from a Roblox client with a `data` parameter
    is decoded and its script served as plain text; every other request is forwarded to the
    static front end. */
module Worker {
  import opened Types
  import opened Strings
  import opened Js
  import opened Base64
  import opened Http
  import Crypto

  const FrontendUrl: string := "https://your-frontend-url.com"
  const ErrorText: string := "-- Error: Invalid SecureRaw Payload"
  const TextHeaders: seq<(string, string)> :=
    [("content-type", "text/plain; charset=utf-8"), ("cache-control", "no-cache")]

  /** The decode-and-serve branch. The parameter goes to atob as it is: there is no URL-safe
      reversal and no padding. A body of `payload.code` is sent whatever it is, and only a
      thrown exception (including the TypeError of reading `code` on a JSON `null`) gives 400. */
  function Serve(rt: Runtime, data: string): (r: Response)
    ensures r.Reply? && (r.status == 200 || r.status == 400)
    ensures r.status == 200 ==> r.headers == TextHeaders
    ensures r.status == 400 ==> r == Reply(400, [], Text(ErrorText))
    ensures Atob(data).None? ==> r == Reply(400, [], Text(ErrorText))
    ensures Atob(data).Some? && rt.decodeUriComponent(Atob(data).value).None? ==>
      r == Reply(400, [], Text(ErrorText))
    ensures Atob(data).Some? && rt.decodeUriComponent(Atob(data).value).Some? ==>
      var parsed := rt.parse(rt.decodeUriComponent(Atob(data).value).value);
      && (parsed.None? ==> r == Reply(400, [], Text(ErrorText)))
      && (parsed.Some? && parsed.value.Null? ==> r == Reply(400, [], Text(ErrorText)))
      && (parsed.Some? && !parsed.value.Null? ==>
            r == Reply(200, TextHeaders,
                       match Member(parsed.value, "code")
                       case Defined(code) => BodyOf(code)
                       case _ => NoBody))
  {
    match Atob(data)
    case None => Reply(400, [], Text(ErrorText))
    case Some(bin) =>
      match rt.decodeUriComponent(bin)
      case None => Reply(400, [], Text(ErrorText))
      case Some(json) =>
        match rt.parse(json)
        case None => Reply(400, [], Text(ErrorText))
        case Some(payload) =>
          match Member(payload, "code")
          case TypeError => Reply(400, [], Text(ErrorText))
          case Undefined => Reply(200, TextHeaders, NoBody)
          case Defined(code) => Reply(200, TextHeaders, BodyOf(code))
  }

  /** The test that chooses the decode-and-serve branch: a non-empty `data` and a Roblox
      User-Agent. */
  predicate TakesDecodeBranch(data: Option<string>, userAgent: string) {
    data.Some? && data.value != ""
    && (Contains(userAgent, "Roblox") || Contains(userAgent, "RobloxApp"))
  }

  /** `fetch(request)`, given the URL's `search` part, its `data` parameter and the
      User-Agent header (`None` when absent). */
  function Fetch(rt: Runtime, search: string, data: Option<string>, userAgent: Option<string>): (r: Response)
    ensures r.Forward? ==> r.url == FrontendUrl + search
    ensures !r.Forward? ==> data.Some? && data.value != "" && r == Serve(rt, data.value)
    ensures data.None? || data.value == "" ==> r == Forward(FrontendUrl + search)
  {
    var ua := OrString(userAgent, "");
    if TakesDecodeBranch(data, ua) then Serve(rt, data.value)
    else Forward(FrontendUrl + search)
  }

  /** The request is forwarded exactly when it lacks a non-empty `data` parameter or its
      User-Agent does not contain "Roblox"; forwarding keeps the query string and never
      answers 400 itself. */
  lemma ForwardedIff(rt: Runtime, search: string, data: Option<string>, userAgent: Option<string>)
    ensures var r := Fetch(rt, search, data, userAgent);
      r.Forward? <==> !(data.Some? && data.value != "" && Contains(OrString(userAgent, ""), "Roblox"))
    ensures var r := Fetch(rt, search, data, userAgent);
      r.Forward? ==> r.url == FrontendUrl + search
    ensures var r := Fetch(rt, search, data, userAgent);
      !r.Forward? ==> r.Reply? && r.status in {200, 400}
  {
    Crypto.RobloxAppIsRoblox(OrString(userAgent, ""));
  }

  /** Whatever JSON the token carries, the script is served unless it is `null`: `code` is never
      checked for presence, so an object without it is served with an empty body. */
  lemma AnyParsedJsonServed(rt: Runtime, data: string, bin: string, json: string, v: Value)
    requires Atob(data) == Some(bin) && rt.decodeUriComponent(bin) == Some(json)
    requires rt.parse(json) == Some(v)
    ensures Serve(rt, data).status == 200 <==> !v.Null?
    ensures Member(v, "code").Undefined? ==> Serve(rt, data) == Reply(200, TextHeaders, NoBody)
  {
  }

  /** A standard-alphabet string is its own URL-safe form. */
  lemma UrlSafeIdentity(e: string)
    requires AllAlphabet(e)
    requires '-' !in Crypto.ToUrlSafe(e) && '_' !in Crypto.ToUrlSafe(e)
    ensures Crypto.ToUrlSafe(e) == e
  {
    var t := Crypto.ToUrlSafe(e);
    forall i | 0 <= i < |e| ensures t[i] == e[i] {
      assert t[i] in t;
    }
  }

  /** The divergence from the browser decoder, on every token that encodePayload makes: a token
      holding '-' or '_' (the URL-safe replacements of '+' and '/') is answered with 400, and
      any other token, which atob accepts without its padding, serves the script. */
  lemma WorkerOnToken(rt: Runtime, p: RawPayload, search: string, ua: string)
    requires Lawful(rt)
    requires Crypto.EncodePayload(rt, p) != "" && Contains(ua, "Roblox")
    ensures var token := Crypto.EncodePayload(rt, p);
      ('-' in token || '_' in token) ==>
        Fetch(rt, search, Some(token), Some(ua)) == Reply(400, [], Text(ErrorText))
    ensures var token := Crypto.EncodePayload(rt, p);
      ('-' !in token && '_' !in token) ==>
        Fetch(rt, search, Some(token), Some(ua)) == Reply(200, TextHeaders, Text(p.code))
  {
    var token := Crypto.EncodePayload(rt, p);
    Crypto.TokenOfPayload(rt, p);
    var uri := Crypto.PercentEncoded(rt, p).value;
    var e := EncodeGroups(ToBytes(uri));
    assert OrString(Some(ua), "") == ua;
    if '-' in token {
      AtobRejects(token, '-');
    } else if '_' in token {
      AtobRejects(token, '_');
    } else {
      UrlSafeIdentity(e);
      AtobUnpadded(uri);
      assert rt.parse(rt.stringify(ToValue(p))) == Some(ToValue(p));
      ToValueFields(p);
    }
  }

  /** Where the divergence comes from: encodeURIComponent keeps '~', and a '~' that ends a
      group of three bytes of the percent-encoded JSON becomes '+' in base64, so '-' in the
      token, and the worker answers 400 for a link the browser page opens. */
  lemma TildeTokenRejected(rt: Runtime, p: RawPayload, search: string, ua: string, i: nat)
    requires Lawful(rt) && Crypto.EncodePayload(rt, p) != "" && Contains(ua, "Roblox")
    requires Crypto.PercentEncoded(rt, p).Some?
    requires i < |Crypto.PercentEncoded(rt, p).value| && i % 3 == 2
    requires Crypto.PercentEncoded(rt, p).value[i] == '~'
    ensures '-' in Crypto.EncodePayload(rt, p)
    ensures Fetch(rt, search, Some(Crypto.EncodePayload(rt, p)), Some(ua)) == Reply(400, [], Text(ErrorText))
    ensures Crypto.Decoded(rt, Crypto.EncodePayload(rt, p)) == Some(ToValue(p))
  {
    Crypto.TokenOfPayload(rt, p);
    var uri := Crypto.PercentEncoded(rt, p).value;
    var e := EncodeGroups(ToBytes(uri));
    TildeEncodesToPlus(uri, i);
    var token := Crypto.EncodePayload(rt, p);
    assert token[4 * (i / 3) + 3] == '-';
    WorkerOnToken(rt, p, search, ua);
    Crypto.RoundTrip(rt, p);
  }

  /** The decode-and-serve branch with the browser decoder's restoration of the standard
      alphabet and of the padding before atob. */
  function ServeRestored(rt: Runtime, data: string): (r: Response)
    ensures r.Reply? && (r.status == 200 || r.status == 400)
    ensures r.status == 200 ==> r.headers == TextHeaders
  {
    Serve(rt, Crypto.Pad(Crypto.FromUrlSafe(data)))
  }

  /** With the restoration, every token encodePayload makes serves its script. */
  lemma RestoredServesEveryToken(rt: Runtime, p: RawPayload)
    requires Lawful(rt) && Crypto.EncodePayload(rt, p) != ""
    ensures ServeRestored(rt, Crypto.EncodePayload(rt, p)) == Reply(200, TextHeaders, Text(p.code))
  {
    Crypto.TokenOfPayload(rt, p);
    var uri := Crypto.PercentEncoded(rt, p).value;
    Crypto.TokenRestoresBase64(uri);
    AtobBtoa(uri);
    assert rt.parse(rt.stringify(ToValue(p))) == Some(ToValue(p));
    ToValueFields(p);
  }
}
