/** The responses the two routers produce, as values. */
module Http {
  import opened Js

  /** The body a response is built with. `Text` is a string body; `NoBody` is what
      `new Response(undefined)` or `new Response(null)` sends; `Converted` is a non-string value
      that the runtime turns into text (String() or a JSON body) before sending. */
  datatype Body = NoBody | Text(text: string) | Converted(value: Value)

  /** The body made from a value read out of a payload. */
  function BodyOf(v: Value): (b: Body)
    ensures b.Text? <==> v.Str?
    ensures b.Text? ==> b.text == v.s
    ensures b.NoBody? <==> v.Null?
  {
    match v
    case Null => NoBody
    case Str(s) => Text(s)
    case _ => Converted(v)
  }

  datatype Response =
    | Reply(status: int, headers: seq<(string, string)>, body: Body)
    | Redirect(status: int, location: string)
    /** The request is handed on, unchanged, to another origin at `url`. */
    | Forward(url: string)
}
