/** The payload token codec and the environment test of the browser page (utils/crypto.ts). */
module Crypto {
  import opened Types
  import opened Strings
  import opened Js
  import opened Base64

  /** The characters of the URL-safe base64 alphabet (RFC 4648 section 5). */
  predicate IsUrlSafeChar(c: char) {
    'A' <= c <= 'Z' || 'a' <= c <= 'z' || '0' <= c <= '9' || c == '-' || c == '_'
  }

  /** `s.replace(/\+/g, '-').replace(/\//g, '_')`. */
  function ToUrlSafe(s: string): (r: string)
    ensures |r| == |s|
    ensures forall i :: 0 <= i < |s| ==>
      r[i] == (if s[i] == '+' then '-' else if s[i] == '/' then '_' else s[i])
  {
    ReplaceChar(ReplaceChar(s, '+', '-'), '/', '_')
  }

  /** `s.replace(/-/g, '+').replace(/_/g, '/')`. */
  function FromUrlSafe(s: string): (r: string)
    ensures |r| == |s|
    ensures forall i :: 0 <= i < |s| ==>
      r[i] == (if s[i] == '-' then '+' else if s[i] == '_' then '/' else s[i])
  {
    ReplaceChar(ReplaceChar(s, '-', '+'), '_', '/')
  }

  /** Standard base64 text becomes URL-safe text, and the reverse substitution restores it,
      because the standard alphabet has neither '-' nor '_'. */
  lemma UrlSafeRoundTrip(e: string)
    requires AllAlphabet(e)
    ensures forall i :: 0 <= i < |ToUrlSafe(e)| ==> IsUrlSafeChar(ToUrlSafe(e)[i])
    ensures FromUrlSafe(ToUrlSafe(e)) == e
  {
  }

  /** The token `btoa` output becomes: the URL-safe form of the unpadded encoding. */
  lemma TokenOfBase64(e: string, n: nat)
    requires AllAlphabet(e) && |e| == UnpaddedLength(n)
    ensures StripTrailing(ToUrlSafe(e + Padding(n)), '=') == ToUrlSafe(e)
  {
    var pad := Padding(n);
    ReplaceCharConcat(e, pad, '+', '-');
    ReplaceCharConcat(ReplaceChar(e, '+', '-'), ReplaceChar(pad, '+', '-'), '/', '_');
    var k := if n % 3 == 1 then 2 else if n % 3 == 2 then 1 else 0;
    assert ReplaceChar(ReplaceChar(pad, '+', '-'), '/', '_') == Repeat('=', k);
    var t := ToUrlSafe(e);
    UrlSafeRoundTrip(e);
    assert t == [] || t[|t| - 1] != '=' by {
      if t != [] { assert IsUrlSafeChar(t[|t| - 1]); }
    }
    StripTrailingAppended(t, '=', k);
  }

  /** The text encodeURIComponent gives for the record's JSON, or `None` when it throws. */
  function PercentEncoded(rt: Runtime, p: RawPayload): Option<string> {
    rt.encodeUriComponent(rt.stringify(ToValue(p)))
  }

  /** encodePayload: JSON.stringify, encodeURIComponent, btoa, URL-safe substitution and
      removal of the trailing padding; `""` when a step throws. The token is always URL-safe,
      and when no step throws it is the URL-safe, unpadded base64 of the percent-encoding. */
  function EncodePayload(rt: Runtime, p: RawPayload): (token: string)
    ensures forall i :: 0 <= i < |token| ==> IsUrlSafeChar(token[i])
    ensures '+' !in token && '/' !in token && '=' !in token
    ensures PercentEncoded(rt, p).None? ==> token == ""
    ensures PercentEncoded(rt, p).Some? && !IsLatin1(PercentEncoded(rt, p).value) ==> token == ""
    ensures PercentEncoded(rt, p).Some? && IsLatin1(PercentEncoded(rt, p).value) ==>
      token == ToUrlSafe(EncodeGroups(ToBytes(PercentEncoded(rt, p).value)))
  {
    match rt.encodeUriComponent(rt.stringify(ToValue(p)))
    case None => ""
    case Some(uri) =>
      match Btoa(uri)
      case None => ""
      case Some(b64) =>
        TokenShape(uri);
        StripTrailing(ToUrlSafe(b64), '=')
  }

  /** The token made from Latin-1 text `uri` is the URL-safe form of its unpadded base64. */
  lemma TokenShape(uri: string)
    requires IsLatin1(uri)
    ensures StripTrailing(ToUrlSafe(Btoa(uri).value), '=') == ToUrlSafe(EncodeGroups(ToBytes(uri)))
    ensures forall i :: 0 <= i < |ToUrlSafe(EncodeGroups(ToBytes(uri)))| ==>
      IsUrlSafeChar(ToUrlSafe(EncodeGroups(ToBytes(uri)))[i])
  {
    var e := EncodeGroups(ToBytes(uri));
    EncodeGroupsLength(ToBytes(uri));
    TokenOfBase64(e, |uri|);
    UrlSafeRoundTrip(e);
  }

  const DataPrefix: string := "?data="

  /** `s.replace(/^\?data=/, '')`: one prefix, and only at the start. */
  function StripDataPrefix(s: string): (r: string)
    ensures StartsWith(s, DataPrefix) ==> DataPrefix + r == s
    ensures !StartsWith(s, DataPrefix) ==> r == s
  {
    if StartsWith(s, DataPrefix) then s[|DataPrefix|..] else s
  }

  /** The string the padding loop ends with: `s` followed by the fewest '=' that make its
      length a multiple of four. */
  function Pad(s: string): (r: string)
    ensures |r| % 4 == 0 && |s| <= |r| <= |s| + 3
    ensures r[..|s|] == s && forall i :: |s| <= i < |r| ==> r[i] == '='
    ensures |s| % 4 == 0 ==> r == s
  {
    s + Repeat('=', (4 - |s| % 4) % 4)
  }

  /** The steps both decoders share after padding: atob, decodeURIComponent and JSON.parse,
      with any throw as `None`. A parsed JSON `null` is indistinguishable from the failure
      result, so it is `None` too. */
  function DecodeStandard(rt: Runtime, b64: string): (r: Option<Value>)
    ensures Atob(b64).None? ==> r.None?
    ensures Atob(b64).Some? && rt.decodeUriComponent(Atob(b64).value).None? ==> r.None?
    ensures Atob(b64).Some? && rt.decodeUriComponent(Atob(b64).value).Some? ==>
      var parsed := rt.parse(rt.decodeUriComponent(Atob(b64).value).value);
      && (parsed.None? ==> r.None?)
      && (parsed.Some? ==> r == (if parsed.value.Null? then None else parsed))
  {
    match Atob(b64)
    case None => None
    case Some(bin) =>
      match rt.decodeUriComponent(bin)
      case None => None
      case Some(text) =>
        match rt.parse(text)
        case None => None
        case Some(v) => if v.Null? then None else Some(v)
  }

  /** The value decodePayload returns for `token`. */
  function Decoded(rt: Runtime, token: string): (r: Option<Value>)
    ensures token == "" ==> r.None?
    ensures r.Some? ==> !r.value.Null?
    ensures var b64 := Pad(FromUrlSafe(StripDataPrefix(token)));
      token != "" && Atob(b64).None? ==> r.None?
    ensures var b64 := Pad(FromUrlSafe(StripDataPrefix(token)));
      token != "" && Atob(b64).Some? && rt.decodeUriComponent(Atob(b64).value).None? ==> r.None?
    ensures var b64 := Pad(FromUrlSafe(StripDataPrefix(token)));
      token != "" && Atob(b64).Some? && rt.decodeUriComponent(Atob(b64).value).Some? ==>
        var parsed := rt.parse(rt.decodeUriComponent(Atob(b64).value).value);
        && (parsed.None? ==> r.None?)
        && (parsed.Some? ==> r == (if parsed.value.Null? then None else parsed))
  {
    if token == "" then None
    else DecodeStandard(rt, Pad(FromUrlSafe(StripDataPrefix(token))))
  }

  /** decodePayload(safeBase64). */
  method DecodePayload(rt: Runtime, safeBase64: string) returns (r: Option<Value>)
    ensures r == Decoded(rt, safeBase64)
  {
    if safeBase64 == "" {
      return None;
    }
    var cleanString := StripDataPrefix(safeBase64);
    cleanString := FromUrlSafe(cleanString);
    ghost var base := cleanString;
    ghost var added := 0;
    while |cleanString| % 4 != 0
      invariant added <= (4 - |base| % 4) % 4
      invariant cleanString == base + Repeat('=', added)
      decreases 3 - added
    {
      PadStep(base, added);
      cleanString := cleanString + "=";
      added := added + 1;
    }
    PadDone(base, added, cleanString);
    r := DecodeStandard(rt, cleanString);
  }

  /** One more turn of a padding loop is still within `Pad`. */
  lemma PadStep(base: string, k: nat)
    requires k <= (4 - |base| % 4) % 4 && (|base| + k) % 4 != 0
    ensures k + 1 <= (4 - |base| % 4) % 4
    ensures base + Repeat('=', k) + "=" == base + Repeat('=', k + 1)
  {
  }

  /** A padding loop that stops at a length ≡ 0 (mod 4) has built `Pad(base)`. */
  lemma PadDone(base: string, k: nat, padded: string)
    requires k <= (4 - |base| % 4) % 4 && padded == base + Repeat('=', k) && |padded| % 4 == 0
    ensures padded == Pad(base)
  {
    assert k == (4 - |base| % 4) % 4;
  }

  /** getPayloadFromUrl, given the `data` query parameter (`None` when there is none). */
  method GetPayloadFromUrl(rt: Runtime, dataParam: Option<string>) returns (r: Option<Value>)
    ensures dataParam.None? ==> r.None?
    ensures dataParam.Some? ==> r == Decoded(rt, dataParam.value)
  {
    if dataParam.Some? && dataParam.value != "" {
      r := DecodePayload(rt, dataParam.value);
    } else {
      r := None;
    }
  }

  /** isRobloxEnvironment(ua): the second test, for "RobloxApp", adds nothing. */
  function IsRobloxEnvironment(ua: string): (r: bool)
    ensures r <==> Contains(ua, "Roblox")
  {
    RobloxAppIsRoblox(ua);
    Contains(ua, "Roblox") || Contains(ua, "RobloxApp")
  }

  lemma RobloxAppIsRoblox(ua: string)
    ensures Contains(ua, "RobloxApp") ==> Contains(ua, "Roblox")
  {
    if Contains(ua, "RobloxApp") {
      assert "RobloxApp" == "Roblox" + "App";
      ContainsPrefixOfNeedle(ua, "Roblox", "App");
    }
  }

  /** Stripping the padding and padding again restores what btoa produced. */
  lemma PadRestoresPadding(e: string, n: nat)
    requires |e| == UnpaddedLength(n)
    ensures Pad(e) == e + Padding(n)
  {
    var k := (4 - |e| % 4) % 4;
    assert k == |Padding(n)|;
    assert Repeat('=', k) == Padding(n);
  }

  /** Under the runtime laws, encodePayload gives a non-empty token whenever encodeURIComponent
      succeeds with non-empty text, which it always does on JSON text. */
  lemma EncodeSucceeds(rt: Runtime, p: RawPayload)
    requires Lawful(rt) && PercentEncoded(rt, p).Some? && PercentEncoded(rt, p).value != ""
    ensures EncodePayload(rt, p) != ""
  {
    var uri := PercentEncoded(rt, p).value;
    assert IsLatin1(uri);
    EncodeGroupsLength(ToBytes(uri));
  }

  /** A successful token is the URL-safe form of the unpadded base64 of Latin-1 text. */
  lemma TokenOfPayload(rt: Runtime, p: RawPayload)
    requires Lawful(rt) && EncodePayload(rt, p) != ""
    ensures PercentEncoded(rt, p).Some? && IsLatin1(PercentEncoded(rt, p).value)
    ensures EncodePayload(rt, p) == ToUrlSafe(EncodeGroups(ToBytes(PercentEncoded(rt, p).value)))
    ensures rt.decodeUriComponent(PercentEncoded(rt, p).value) == Some(rt.stringify(ToValue(p)))
  {
    var uri := PercentEncoded(rt, p).value;
    assert IsLatin1(uri);
    TokenShape(uri);
  }

  /** Decoding such a token hands atob exactly what btoa produced. */
  lemma TokenRestoresBase64(uri: string)
    requires IsLatin1(uri) && ToUrlSafe(EncodeGroups(ToBytes(uri))) != ""
    ensures var token := ToUrlSafe(EncodeGroups(ToBytes(uri)));
      StripDataPrefix(token) == token && Pad(FromUrlSafe(token)) == Btoa(uri).value
  {
    var e := EncodeGroups(ToBytes(uri));
    var token := ToUrlSafe(e);
    UrlSafeRoundTrip(e);
    assert StripDataPrefix(token) == token by {
      assert IsUrlSafeChar(token[0]);
    }
    EncodeGroupsLength(ToBytes(uri));
    PadRestoresPadding(e, |uri|);
  }

  /** The round trip: whenever encodePayload succeeds, decodePayload gives back the record
      JSON.stringify was given. */
  lemma RoundTrip(rt: Runtime, p: RawPayload)
    requires Lawful(rt)
    requires EncodePayload(rt, p) != ""
    ensures Decoded(rt, EncodePayload(rt, p)) == Some(ToValue(p))
  {
    TokenOfPayload(rt, p);
    var uri := PercentEncoded(rt, p).value;
    TokenRestoresBase64(uri);
    AtobBtoa(uri);
    assert rt.parse(rt.stringify(ToValue(p))) == Some(ToValue(p));
    ToValueFields(p);
  }

  /** A token made by encodePayload never starts with the `?data=` prefix. */
  lemma TokenHasNoPrefix(rt: Runtime, p: RawPayload)
    ensures StripDataPrefix(EncodePayload(rt, p)) == EncodePayload(rt, p)
  {
    var t := EncodePayload(rt, p);
    if t != [] {
      assert IsUrlSafeChar(t[0]);
    }
  }

  /** Exactly one leading `?data=` is removed: a second one is kept and decoded as text. */
  lemma PrefixStrippedOnce(rt: Runtime, t: string)
    ensures Decoded(rt, DataPrefix + t) == DecodeStandard(rt, Pad(FromUrlSafe(t)))
  {
    assert (DataPrefix + t)[..|DataPrefix|] == DataPrefix;
    assert (DataPrefix + t)[|DataPrefix|..] == t;
  }

  /** A token with no prefix, such as any output of encodePayload, is decoded as it is. */
  lemma NoPrefixNoStrip(rt: Runtime, t: string)
    requires t != "" && !StartsWith(t, DataPrefix)
    ensures Decoded(rt, t) == DecodeStandard(rt, Pad(FromUrlSafe(t)))
  {
  }

  /** A malformed token gives the failure result: '!' is outside every base64 alphabet. */
  lemma MalformedTokenRejected(rt: Runtime)
    ensures Decoded(rt, "not-valid-base64!!") == None
  {
    var t := "not-valid-base64!!";
    assert t[0] == 'n' && |t| == 18;
    assert StripDataPrefix(t) == t;
    var padded := Pad(FromUrlSafe(t));
    assert FromUrlSafe(t)[16] == '!';
    assert padded[16] == '!';
    AtobRejects(padded, '!');
  }
}
