# SecureRaw payload codec, routers and page state, in Dafny

SecureRaw turns a pasted script and an optional password into one link. The link's last path
segment is a token: the JSON of a `RawPayload` record (`code`, optional `password`,
`timestamp`), percent-encoded, base64-encoded, mapped to the URL-safe alphabet and stripped of
its `=` padding. A Roblox game client that fetches the link receives the script as plain text;
a browser is sent to a viewer page that unlocks for a Roblox environment, for a link without a
password, or for the right password. The locked page also shows a "Simulate Roblox User-Agent"
button to every visitor, and pressing it unlocks the page with no password.

The model covers:

- the token codec of `utils/crypto.ts`:
  - `Crypto.EncodePayload`;
  - `Crypto.DecodePayload`, a method with the padding loop, proved against `Crypto.Decoded`;
  - `Crypto.GetPayloadFromUrl`;
  - `Crypto.IsRobloxEnvironment`;
- `btoa` and `atob`, written out concretely in `Base64`:
  - `btoa` follows RFC 4648 section 4;
  - `atob` is the forgiving-base64 decode of the WHATWG Infra Standard, which accepts a token without its padding;
- the serverless router of `api/raw.ts`:
  - `ApiRaw.Route`, the response it sends;
  - its inner decoder `ApiRaw.DecodePayload`;
  - `ApiRaw.Handler`, a method that drives a `ServerResponse` object through `setHeader`, `status().send()` and `redirect()`;
- the edge worker of `worker.js` (`Worker.Fetch`);
- the viewer gate of `components/ViewRaw.tsx`: a class `ViewRaw.Gate` with the four state fields of the component;
- the composer of `components/CreateRaw.tsx`: a class `CreateRaw.Composer` and the pure link construction;
- the page state of `App.tsx`: a class `App.AppState` and its render selection.

JSON.stringify, JSON.parse, encodeURIComponent and decodeURIComponent are foreign. They are
the fields of a `Js.Runtime` value that every operation takes as a parameter. `Js.Lawful(rt)`
is the pair of inverse laws the round trips rely on:

- JSON.parse undoes JSON.stringify on payload records;
- decodeURIComponent undoes encodeURIComponent, whose output uses only URI-component characters.

A JSON value is a `Js.Value`. Reading a property of one gives a `Js.Lookup`: a value, `undefined`, or the TypeError thrown on `null`.
JavaScript truthiness is `Js.Truthy`.

## Model

| member | source | states |
|---|---|---|
| Crypto.ToUrlSafe | utils/crypto.ts:12 | every '+' becomes '-' and every '/' becomes '_'; all other characters and the length are kept |
| Crypto.FromUrlSafe | utils/crypto.ts:28 | every '-' becomes '+' and every '_' becomes '/'; all other characters and the length are kept |
| Crypto.EncodePayload | utils/crypto.ts:3-17 | the token only ever holds URL-safe characters (A-Z a-z 0-9 - _), so never '+', '/' or '='; when encodeURIComponent and btoa succeed it is the URL-safe form of the unpadded base64 of the percent-encoded JSON; when either throws it is "" |
| Crypto.EncodeSucceeds | utils/crypto.ts:3-17 | under the runtime laws, a non-empty percent-encoding always gives a non-empty token |
| Crypto.UrlSafeRoundTrip | utils/crypto.ts:28 | on standard base64 text, the decoder's '-'→'+', '_'→'/' substitution exactly undoes the encoder's '+'→'-', '/'→'_', and the substituted text is URL-safe |
| Crypto.TokenOfBase64 | utils/crypto.ts:12 | stripping the trailing '=' from the URL-safe form of padded base64 leaves exactly the URL-safe form of the unpadded encoding |
| Crypto.TokenShape | utils/crypto.ts:6-12 | a token built from Latin-1 text is the URL-safe form of its unpadded base64, and all its characters are URL-safe |
| Crypto.StripDataPrefix | utils/crypto.ts:23 | a string starting with "?data=" loses exactly that prefix; any other string is kept as it is |
| Crypto.Pad | utils/crypto.ts:31-33 | the padded string has length ≡ 0 (mod 4), keeps the input as prefix, adds at most three characters, all '=', and leaves an input already of length ≡ 0 (mod 4) unchanged |
| Crypto.PadRestoresPadding | utils/crypto.ts:31-33 | padding the unpadded encoding of n bytes gives back exactly the padding btoa added |
| Crypto.DecodePayload | utils/crypto.ts:19-41 | the method with the padding loop returns `Decoded(token)`: the padding loop ends with exactly `Pad` of the substituted string |
| Crypto.DecodeStandard | utils/crypto.ts:35-40 | a throwing atob, decodeURIComponent or JSON.parse gives `None`; otherwise the parsed value, with JSON `null` also giving `None` |
| Crypto.Decoded | utils/crypto.ts:19-41 | the empty token gives `None`; a result is never JSON `null`; after the prefix strip, the reversal and the padding, a throwing atob, decodeURIComponent or JSON.parse gives `None`, and a successful parse gives its value |
| Crypto.GetPayloadFromUrl | utils/crypto.ts:43-53 | no `data` parameter gives `None`; otherwise the result is the decoding of the parameter |
| Crypto.IsRobloxEnvironment | utils/crypto.ts:55-58 | true iff the User-Agent contains "Roblox"; the "RobloxApp" test is subsumed |
| Crypto.RobloxAppIsRoblox | utils/crypto.ts:57 | a string containing "RobloxApp" contains "Roblox" |
| Crypto.TokenOfPayload | utils/crypto.ts:3-17 | a non-empty token is the URL-safe unpadded base64 of the percent-encoded JSON, which is Latin-1 and which decodeURIComponent maps back to the JSON |
| Crypto.TokenRestoresBase64 | utils/crypto.ts:23-33 | on a token, the prefix strip does nothing and the substitution plus padding rebuild exactly the string btoa produced |
| Crypto.RoundTrip | utils/crypto.ts:3-41 | whenever encodePayload succeeds, decodePayload of its token returns the record's JSON value |
| Crypto.TokenHasNoPrefix | utils/crypto.ts:23 | a token never starts with "?data=", so stripping leaves it as it is |
| Crypto.PrefixStrippedOnce | utils/crypto.ts:23 | one leading "?data=" is removed and a second one is kept and decoded as token text |
| Crypto.NoPrefixNoStrip | utils/crypto.ts:23 | a non-empty token without the prefix is decoded as it is |
| Crypto.MalformedTokenRejected | utils/crypto.ts:35-40 | the token "not-valid-base64!!" decodes to `None` for every runtime, because '!' is outside every base64 alphabet |
| Base64.Btoa | utils/crypto.ts:6 | btoa succeeds iff every character is at most U+00FF |
| Base64.EncodeGroupsLength | utils/crypto.ts:6 | n bytes give 4⌊n/3⌋ characters, plus n mod 3 + 1 more when n mod 3 ≠ 0, before padding |
| Base64.SextetsRoundTrip | utils/crypto.ts:35 | regrouping the six-bit groups into bytes undoes splitting the bytes into them, group by group and in the final partial group |
| Base64.DecodeEncodeGroups | utils/crypto.ts:35 | decoding the unpadded alphabet text gives back the bytes |
| Base64.AtobBtoa | utils/crypto.ts:35 | atob(btoa(s)) == s for every Latin-1 string |
| Base64.Atob | utils/crypto.ts:35 | a successful atob returns a Latin-1 string, and succeeds only when every character of its input is in the alphabet, ASCII whitespace or '=' |
| Base64.AtobUnpadded | worker.js:23 | atob accepts the encoding without its padding and returns the original string |
| Base64.DropPaddingOfPadded | utils/crypto.ts:35 | the forgiving decoder removes exactly the padding btoa added |
| Base64.AtobRejects | worker.js:23 | a character that is outside the alphabet, is not ASCII whitespace and is not '=' makes atob throw |
| Base64.SextetAtGroupEnd | utils/crypto.ts:6 | the last character of each full group encodes the low six bits of the group's third byte |
| Base64.TildeEncodesToPlus | utils/crypto.ts:6 | a '~' at an offset ≡ 2 (mod 3) becomes '+' in the base64 text |
| ApiRaw.IsRobloxIffContains | api/raw.ts:22-25 | the three-substring Roblox test holds iff the User-Agent contains "Roblox" |
| ApiRaw.HelperDecoded | api/raw.ts:28-47 | on a non-empty string without the "?data=" prefix it is the browser decoder; on a prefixed one it keeps the prefix and decodes it as token text; `""` is passed on to atob with no empty check |
| ApiRaw.DecodePayload | api/raw.ts:28-47 | the helper with its padding loop returns the same as `HelperDecoded`: URL-safe reversal and padding, with no empty check and no prefix strip |
| ApiRaw.ServeDecoded | api/raw.ts:55-60 | status 200 with `Content-Type: text/plain; charset=utf-8` and the `code` body iff the payload and its `code` are truthy; otherwise 500 with the fixed error text |
| ApiRaw.Route | api/raw.ts:13-74 | 400 "Missing data parameter" iff `data` is missing or empty; for a Roblox User-Agent and present `data`, the answer `ServeDecoded` gives for the helper's decoding of the first value (200 with the script, or 500); otherwise a 307 redirect to the front end; never a forward |
| ApiRaw.Handler | api/raw.ts:13-74 | from a fresh response object, the handler sends exactly `Route(request)` |
| ApiRaw.MissingDataIff400 | api/raw.ts:17-19 | a missing or empty `data` is answered 400 "Missing data parameter" whatever the User-Agent, and no other request is answered 400 |
| ApiRaw.BrowserRedirected | api/raw.ts:62-72 | without "Roblox" in the User-Agent the answer is a 307 redirect to proto (default https) + "://" + host + "/?data=" + data, independent of the runtime, so nothing is decoded |
| ApiRaw.FirstElementDecoded | api/raw.ts:52 | for a Roblox client, a repeated `data` parameter whose first value is non-empty is answered as if only that first value had been sent |
| ApiRaw.EmptyArrayFails | api/raw.ts:52-60 | an empty array of values gives 500 for a Roblox client |
| ApiRaw.HelperAgreesOnTokens | api/raw.ts:28-47 | the helper decoder agrees with the browser decoder on every token encodePayload makes |
| ApiRaw.RobloxServedScript | api/raw.ts:50-60 | a Roblox client given a link's token gets 200 with the exact script text, or 500 when the script is "" (a falsy `code`) |
| ApiRaw.RobloxRoute | api/raw.ts:22-60 | a Roblox request with one non-empty `data` value is answered by `ServeDecoded` of the helper's decoding of that value |
| ApiRaw.ServeRecord | api/raw.ts:55-60 | a decoded payload record is served with 200 and exactly its script, or 500 when the script is "" |
| Worker.Serve | worker.js:20-34 | the decode branch answers 400 with "-- Error: Invalid SecureRaw Payload" when atob, decodeURIComponent or JSON.parse throws or the JSON is `null`; otherwise 200 with the two text headers and the body made from `payload.code`, empty when it is absent |
| Worker.Fetch | worker.js:13-47 | a request without a non-empty `data` is forwarded to FRONTEND_URL + search; a request that is not forwarded has a non-empty `data` and gets `Serve` of it |
| Worker.ForwardedIff | worker.js:13-47 | the request is forwarded to FRONTEND_URL + search iff it lacks a non-empty `data` or "Roblox" in the User-Agent; a request that is not forwarded gets 200 or 400 |
| Worker.AnyParsedJsonServed | worker.js:23-31 | any parsed JSON except `null` is served with 200; an absent `code` gives an empty body |
| Worker.UrlSafeIdentity | worker.js:23 | a standard-alphabet string whose URL-safe form has no '-' or '_' is its own URL-safe form |
| Worker.WorkerOnToken | worker.js:19-34 | for a Roblox client and an encoder token: 400 if the token holds '-' or '_', otherwise 200 with the exact script text |
| Worker.TildeTokenRejected | worker.js:23 | a '~' at offset ≡ 2 (mod 3) of the percent-encoded JSON gives a token with '-' that the worker answers 400 and the browser decoder accepts |
| Worker.ServeRestored | worker.js:20-34 | the corrected branch, which restores the alphabet and the padding first, answers only 200 with the text headers or 400 |
| Worker.RestoredServesEveryToken | worker.js:20-34 | with the restoration, every encoder token is answered 200 with the exact script text |
| ViewRaw.UnlockRule | components/ViewRaw.tsx:18-41 | the effect unlocks iff the User-Agent contains "Roblox", the environment is simulated, or `payload.password` is falsy |
| ViewRaw.IsBlockedKey | components/ViewRaw.tsx:58-67 | only F12, I, J, C and u can be blocked; without Ctrl only F12 is, with Ctrl alone F12 and u, with Ctrl+Shift all five (case-sensitive) |
| ViewRaw.Gate.BlocksKey | components/ViewRaw.tsx:54-67 | a keydown is suppressed iff the gate is locked and the key is one of F12, Ctrl+Shift+I/J/C or Ctrl+u |
| ViewRaw.Gate.BlocksContextMenu | components/ViewRaw.tsx:54-58 | the context menu is blocked iff the gate is locked, together with F12 |
| ViewRaw.Gate.constructor | components/ViewRaw.tsx:10-41 | mounting starts from empty input, no error and no simulation, and the first effect run unlocks iff Roblox or no password |
| ViewRaw.Gate.RunEffect | components/ViewRaw.tsx:18-41 | the effect unlocks iff Roblox, simulated or no truthy password, never locks, and changes nothing else |
| ViewRaw.Gate.SetPasswordInput | components/ViewRaw.tsx:12 | typing changes only the input and keeps the gate consistent |
| ViewRaw.Gate.HandleUnlock | components/ViewRaw.tsx:43-52 | an input strictly equal to the stored password unlocks and clears the error; any other input leaves the lock as it was, sets "Access Denied: Invalid Password" and clears the input |
| ViewRaw.Gate.SimulateRobloxEnvironment | components/ViewRaw.tsx:139 | the button sets the simulation flag and the re-run effect leaves the gate unlocked |
| ViewRaw.Gate.EnvironmentLabel | components/ViewRaw.tsx:161 | the badge reads "Environment: Roblox" iff simulated or the User-Agent contains "Roblox", and "Environment: Admin" otherwise |
| ViewRaw.UnlockRuleForPayload | components/ViewRaw.tsx:18-41 | for a payload record, the effect unlocks iff Roblox, simulated, or the password is absent or "" |
| ViewRaw.PasswordMatchesExactly | components/ViewRaw.tsx:45 | an input unlocks iff it is the stored password character for character (no trimming, case-sensitive) |
| CreateRaw.BuildPayload | components/CreateRaw.tsx:24-28 | the record keeps the script as typed and the click time, and never stores an empty password |
| CreateRaw.BuiltPayloadFields | components/CreateRaw.tsx:24-28 | the script is kept untrimmed; the password is absent iff it is whitespace only; a stored password is the typed one less its leading and trailing whitespace, non-empty and with no whitespace at either end |
| CreateRaw.OriginFallback | components/CreateRaw.tsx:39 | the fallback origin is a prefix of the address without '?': the part before the first '?', less one trailing '/' if present |
| CreateRaw.LinkOrigin | components/CreateRaw.tsx:39 | a non-empty `window.location.origin` is used as it is; an empty one is replaced by the fallback, which holds no '?' |
| CreateRaw.ApiLink | components/CreateRaw.tsx:40 | the link is the origin, then "/api/raw/", then the token, with nothing added or lost |
| CreateRaw.LinkFor | components/CreateRaw.tsx:24-42 | no link is created iff the encoder gives ""; otherwise the link is origin + "/api/raw/" + the token of the built record |
| CreateRaw.LinkShape | components/CreateRaw.tsx:30-40 | a created link ends with a non-empty token that holds no '/' and no '?', so it is one path segment |
| CreateRaw.LinkCarriesPayload | components/CreateRaw.tsx:24-42 | the token of a created link decodes back to the record the form built |
| CreateRaw.Composer.constructor | components/CreateRaw.tsx:11-13 | empty script, empty password, not generating |
| CreateRaw.Composer.SetCode | components/CreateRaw.tsx:11 | typing the script changes only the script |
| CreateRaw.Composer.SetPassword | components/CreateRaw.tsx:12 | typing the password changes only the password |
| CreateRaw.Composer.CreateDisabled | components/CreateRaw.tsx:139 | the button is disabled iff the script is whitespace only or a link is being generated |
| CreateRaw.Composer.HandleCreate | components/CreateRaw.tsx:16-50 | a whitespace-only script is a no-op (no link, `isGenerating` untouched); otherwise the link is `LinkFor(...)`, absent when the token is "", and `isGenerating` is false afterwards |
| App.CheckUrlResult | App.tsx:16-25 | a truthy decode result of the `data` parameter gives the viewer mode with exactly that value; anything else, including no parameter, gives the create mode with no payload |
| App.SharedLinkOpensViewer | App.tsx:16-25 | opening a link made by encodePayload shows the viewer with exactly the encoded record |
| App.AppState.constructor | App.tsx:10-12 | the page starts in create mode, with no payload and no link |
| App.AppState.CheckUrl | App.tsx:16-25 | sets mode and payload to `CheckUrlResult` and leaves the link unchanged |
| App.AppState.HandleLinkCreated | App.tsx:39-41 | changes only the link |
| App.AppState.ResetApp | App.tsx:43-49 | create mode, no payload, empty link |
| App.AppState.CurrentScreen | App.tsx:52-86 | the viewer shows iff view mode with a truthy payload; in create mode the form shows iff the link is empty and the success panel iff it is not |
| App.ValidStateShowsScreen | App.tsx:52-86 | in a consistent state the page always shows the viewer, the form or the success panel |

## Left out

- The 800 ms `setTimeout` of components/CreateRaw.tsx:22 is not modelled: `CreateRaw.Composer.HandleCreate` does its work synchronously, so the model never observes `isGenerating` being true between events.
- DOM plumbing is not modelled: JSX, styling, event-listener registration and removal, the clipboard, `window.open`, `history.pushState`, `alert` and `console`. The gate does model the two things the listeners decide, `BlocksKey` and `BlocksContextMenu`.
- I/O and the hosting environment are parameters or left out:
  - the worker's `fetch` to the origin becomes `Forward(FRONTEND_URL + search)`;
  - `Date.now()`, `navigator.userAgent`, `window.location.origin` and `href` are parameters;
  - the URL's `data` parameter arrives already decoded by URLSearchParams;
  - the Vercel request arrives as its `data` query value and three headers.
- JSON.stringify, JSON.parse, encodeURIComponent and decodeURIComponent are not written out. They are the `Js.Runtime` parameter, and their only assumed behaviour is `Js.Lawful`.
- JSON numbers are integers; floating-point timestamps are not modelled.
- A Dafny `string` is a sequence of Unicode scalar values, while a JavaScript string is a sequence of UTF-16 code units. So `cleanString.length % 4` counts characters, and lone surrogates, on which encodeURIComponent throws, cannot be written. No routed outcome changes: a token that atob accepts holds only ASCII, where the two counts agree, and any character outside the base64 alphabet makes atob throw either way.
- A non-string body (`Http.Converted`) is not converted to its text, because the conversion belongs to the runtime (`String()` in the worker, a JSON body in Vercel).
- Headers the platforms add by themselves are not modelled, such as the content type of an error response.
- ViewRaw.Gate.constructor requires a truthy payload: App.tsx:52-54 mounts the viewer only with one, so reading `payload.password` never throws there.
- ApiRaw.Handler requires a fresh response object (status 200, no headers, nothing sent), which is what the platform passes it.
- components/Header.tsx, constants.ts and vite.config.ts are not part of this model: they are markup, fixed strings and build configuration with no logic.

## Findings

The worker is meant to decode links the same way as the other two decoders; its own comment says its logic matches `utils/crypto.ts`. As written, worker.js:23 hands the URL-safe token to `atob` without turning '-' and '_' back into '+' and '/'. The worker decodes only a request that carries the token in a `data` query parameter (`<worker>/?data=<token>`) and whose User-Agent contains "Roblox". A composer link (`/api/raw/<token>`) carries no `data` parameter, so the worker forwards it to the front end without decoding it. `atob` tolerates the missing padding, so the worker does serve many `?data=` requests. But a token whose base64 contains '+' or '/' is refused.

encodeURIComponent keeps '~'. A '~' at an offset ≡ 2 (mod 3) of the percent-encoded JSON becomes '+' in base64, and so '-' in the token. Lua scripts use `~=` for "not equal", so such tokens are common.

Take the script `a ~= b` with timestamp 0. `JSON.stringify` gives `{"code":"a ~= b","timestamp":0}`. It percent-encodes to `%7B%22code%22%3A%22a%20~%3D%20b%22%2C%22timestamp%22%3A0%7D`, where the '~' is at offset 23.

| source | as written | input that shows it | evidently intended | confidence | as-written member | corrected member |
|---|---|---|---|---|---|---|
| worker.js:23 | `atob(data)` on the URL-safe token, with no '-'→'+', '_'→'/' reversal | a Roblox-User-Agent request to the worker with `?data=` set to the token for the script `a ~= b`: its percent-encoded JSON has '~' at offset 23, so the token holds '-', and the worker answers 400 while the browser page decodes the same token | restore the standard alphabet and the padding before `atob`, as utils/crypto.ts:28-33 does | high for the mechanism, medium that it was unintended; not executed | Worker.TildeTokenRejected | Worker.RestoredServesEveryToken |
