/** The page state of the application (App.tsx): which screen is shown, the payload being
    viewed, and the link just created. */
module App {
  import opened Types
  import opened Js
  import Crypto

  /** What the page renders. `Blank` is the page with neither the form nor the success panel,
      which a consistent state never shows. */
  datatype Screen = Viewer(payload: Value) | CreateForm | SuccessPanel(link: string) | Blank

  /** The mode and payload `checkUrl` sets, given the URL's `data` parameter. */
  function CheckUrlResult(rt: Runtime, dataParam: Option<string>): (r: (ViewMode, Option<Value>))
    ensures r.0 == View <==> r.1.Some?
    ensures r.1.Some? ==> Truthy(r.1.value)
    ensures dataParam.None? ==> r == (Create, None)
    ensures dataParam.Some? && Crypto.Decoded(rt, dataParam.value).Some?
            && Truthy(Crypto.Decoded(rt, dataParam.value).value) ==>
      r == (View, Crypto.Decoded(rt, dataParam.value))
    ensures r.1.Some? ==> dataParam.Some? && r.1 == Crypto.Decoded(rt, dataParam.value)
  {
    var data := if dataParam.Some? then Crypto.Decoded(rt, dataParam.value) else None;
    if data.Some? && Truthy(data.value) then (View, data) else (Create, None)
  }

  /** Opening a link made by encodePayload shows the viewer with exactly the encoded record. */
  lemma SharedLinkOpensViewer(rt: Runtime, p: RawPayload)
    requires Lawful(rt) && Crypto.EncodePayload(rt, p) != ""
    ensures CheckUrlResult(rt, Some(Crypto.EncodePayload(rt, p))) == (View, Some(ToValue(p)))
  {
    Crypto.RoundTrip(rt, p);
    ToValueFields(p);
  }

  class AppState {
    var mode: ViewMode
    var payload: Option<Value>
    var generatedLink: string

    /** The viewer mode goes with a payload, and only a truthy one is ever stored. */
    predicate Valid()
      reads this
    {
      (mode == View <==> payload.Some?) && (payload.Some? ==> Truthy(payload.value))
    }

    constructor()
      ensures mode == Create && payload.None? && generatedLink == ""
      ensures Valid()
    {
      mode := Create;
      payload := None;
      generatedLink := "";
    }

    /** `checkUrl`, on mount and on every popstate or hashchange event. */
    method CheckUrl(rt: Runtime, dataParam: Option<string>)
      modifies this
      ensures (mode, payload) == CheckUrlResult(rt, dataParam)
      ensures generatedLink == old(generatedLink)
      ensures Valid()
    {
      var data := Crypto.GetPayloadFromUrl(rt, dataParam);
      if data.Some? && Truthy(data.value) {
        payload := data;
        mode := View;
      } else {
        mode := Create;
        payload := None;
      }
    }

    method HandleLinkCreated(link: string)
      modifies this
      ensures generatedLink == link
      ensures mode == old(mode) && payload == old(payload)
      ensures old(Valid()) ==> Valid()
    {
      generatedLink := link;
    }

    method ResetApp()
      modifies this
      ensures mode == Create && payload.None? && generatedLink == ""
      ensures Valid()
    {
      mode := Create;
      payload := None;
      generatedLink := "";
    }

    /** The render selection: the viewer, then the create form or the success panel. */
    function CurrentScreen(): (s: Screen)
      reads this
      ensures s.Viewer? <==> mode == View && payload.Some? && Truthy(payload.value)
      ensures s.Viewer? ==> s.payload == payload.value
      ensures s.CreateForm? <==> mode == Create && generatedLink == ""
      ensures s.SuccessPanel? <==> mode == Create && generatedLink != ""
      ensures s.SuccessPanel? ==> s.link == generatedLink
    {
      if mode == View && payload.Some? && Truthy(payload.value) then Viewer(payload.value)
      else if mode == Create && generatedLink == "" then CreateForm
      else if mode == Create then SuccessPanel(generatedLink)
      else Blank
    }
  }

  /** In a consistent state exactly one of the viewer, the form and the success panel shows. */
  lemma ValidStateShowsScreen(a: AppState)
    requires a.Valid()
    ensures !a.CurrentScreen().Blank?
  {
  }
}
