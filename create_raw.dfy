/** The composer form (components/CreateRaw.tsx): it builds a payload record from the script
    and the optional password, encodes it, and emits the link `origin/api/raw/<token>`. */
module CreateRaw {
  import opened Types
  import opened Strings
  import opened Js
  import Crypto

  /** The record handleCreate builds: the script verbatim, the trimmed password or none, and
      the time of the click. */
  function BuildPayload(code: string, password: string, now: int): (p: RawPayload)
    ensures p.code == code && p.timestamp == now
    ensures p.password.Some? ==> p.password.value != ""
  {
    var trimmed := Trim(password);
    RawPayload(code, if trimmed == "" then None else Some(trimmed), now)
  }

  /** The script is kept as typed; a whitespace-only password means no password, and a stored
      password is never empty and neither starts nor ends with whitespace. */
  lemma BuiltPayloadFields(code: string, password: string, now: int)
    ensures BuildPayload(code, password, now).code == code
    ensures BuildPayload(code, password, now).timestamp == now
    ensures BuildPayload(code, password, now).password.None? <==> AllWhiteSpace(password)
    ensures var pw := BuildPayload(code, password, now).password;
      pw.Some? ==>
        (pw.value != "" && !IsJsWhiteSpace(pw.value[0]) && !IsJsWhiteSpace(pw.value[|pw.value| - 1]))
    ensures var pw := BuildPayload(code, password, now).password;
      pw.Some? ==> exists i, j ::
        (0 <= i <= j <= |password| && password[i..j] == pw.value
         && AllWhiteSpace(password[..i]) && AllWhiteSpace(password[j..]))
  {
    TrimProperties(password);
    var a := TrimStart(password);
    var t := TrimEnd(a);
    var i := |password| - |a|;
    var j := i + |t|;
    assert password[i..] == a;
    assert password[i..j] == a[..|t|] == t;
    assert password[j..] == a[|t|..];
  }

  /** `href.split('?')[0].replace(/\/$/, '')`: the address before any query, without one
      trailing slash. */
  function OriginFallback(href: string): (r: string)
    ensures |r| <= |href| && r == href[..|r|] && '?' !in r
    ensures r == BeforeFirst(href, '?') || r + "/" == BeforeFirst(href, '?')
    ensures r + "/" == BeforeFirst(href, '?') <==>
      (BeforeFirst(href, '?') != "" && BeforeFirst(href, '?')[|BeforeFirst(href, '?')| - 1] == '/')
  {
    var beforeQuery := BeforeFirst(href, '?');
    var r := DropOneTrailing(beforeQuery, '/');
    assert r == beforeQuery || r + "/" == beforeQuery;
    r
  }

  /** `window.location.origin || <fallback>`. */
  function LinkOrigin(origin: string, href: string): (r: string)
    ensures origin != "" ==> r == origin
    ensures origin == "" ==> r == OriginFallback(href) && '?' !in r
  {
    if origin != "" then origin else OriginFallback(href)
  }

  /** The clean link `/api/raw/<hash>` under the origin, which the hosting layer rewrites to
      `/api/raw?data=<hash>`. */
  function ApiLink(origin: string, hash: string): (r: string)
    ensures |r| == |origin| + 9 + |hash|
    ensures r[..|origin|] == origin && r[|origin|..|origin| + 9] == "/api/raw/"
    ensures r[|origin| + 9..] == hash
  {
    origin + "/api/raw/" + hash
  }

  /** The link handed to `onLinkCreated`, or `None` when the encoder gives `""` and the link is
      never created. */
  function LinkFor(rt: Runtime, code: string, password: string, now: int, origin: string, href: string): (r: Option<string>)
    ensures r.None? <==> Crypto.EncodePayload(rt, BuildPayload(code, password, now)) == ""
    ensures r.Some? ==>
      r.value == LinkOrigin(origin, href) + "/api/raw/" + Crypto.EncodePayload(rt, BuildPayload(code, password, now))
  {
    var hash := Crypto.EncodePayload(rt, BuildPayload(code, password, now));
    if hash == "" then None else Some(ApiLink(LinkOrigin(origin, href), hash))
  }

  /** A created link ends in one path segment, the token, which is not empty. */
  lemma LinkShape(rt: Runtime, code: string, password: string, now: int, origin: string, href: string)
    requires LinkFor(rt, code, password, now, origin, href).Some?
    ensures var hash := Crypto.EncodePayload(rt, BuildPayload(code, password, now));
      && hash != "" && '/' !in hash && '?' !in hash
      && LinkFor(rt, code, password, now, origin, href).value == LinkOrigin(origin, href) + "/api/raw/" + hash
  {
    var hash := Crypto.EncodePayload(rt, BuildPayload(code, password, now));
    NoQueryInToken(hash);
  }

  lemma NoQueryInToken(t: string)
    requires forall i :: 0 <= i < |t| ==> Crypto.IsUrlSafeChar(t[i])
    ensures '?' !in t
  {
  }

  /** The token at the end of a created link decodes back to the record the form built. */
  lemma LinkCarriesPayload(rt: Runtime, code: string, password: string, now: int, origin: string, href: string)
    requires Lawful(rt)
    requires Crypto.EncodePayload(rt, BuildPayload(code, password, now)) != ""
    ensures var hash := Crypto.EncodePayload(rt, BuildPayload(code, password, now));
      Crypto.Decoded(rt, hash) == Some(ToValue(BuildPayload(code, password, now)))
  {
    Crypto.RoundTrip(rt, BuildPayload(code, password, now));
  }

  class Composer {
    var code: string
    var password: string
    var isGenerating: bool

    constructor()
      ensures code == "" && password == "" && !isGenerating
    {
      code := "";
      password := "";
      isGenerating := false;
    }

    method SetCode(text: string)
      modifies this
      ensures code == text && password == old(password) && isGenerating == old(isGenerating)
    {
      code := text;
    }

    method SetPassword(text: string)
      modifies this
      ensures password == text && code == old(code) && isGenerating == old(isGenerating)
    {
      password := text;
    }

    /** The `disabled` condition of the create button. */
    function CreateDisabled(): (disabled: bool)
      reads this
      ensures disabled <==> AllWhiteSpace(code) || isGenerating
    {
      TrimProperties(code);
      Trim(code) == "" || isGenerating
    }

    /** `handleCreate`, with the delay before the work left out. `link` is the argument of the
        `onLinkCreated` call, `None` when it is not called. */
    method HandleCreate(rt: Runtime, now: int, origin: string, href: string) returns (link: Option<string>)
      modifies this
      ensures code == old(code) && password == old(password)
      ensures AllWhiteSpace(code) ==> link.None? && isGenerating == old(isGenerating)
      ensures !AllWhiteSpace(code) ==> link == LinkFor(rt, code, password, now, origin, href) && !isGenerating
    {
      TrimProperties(code);
      if Trim(code) == "" {
        return None;
      }
      isGenerating := true;
      var payload := BuildPayload(code, password, now);
      var hash := Crypto.EncodePayload(rt, payload);
      if hash == "" {
        link := None;
      } else {
        var linkOrigin := LinkOrigin(origin, href);
        link := Some(ApiLink(linkOrigin, hash));
      }
      isGenerating := false;
    }
  }
}
