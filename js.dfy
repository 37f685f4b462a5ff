/** The part of the JavaScript runtime the core depends on: the values JSON.parse can
    produce, property reads and truthiness on them, and the four foreign functions
    (JSON.stringify, JSON.parse, encodeURIComponent, decodeURIComponent) bundled as a
    parameter together with the laws the core relies on. */
module Js {
  import opened Types

  /** A value JSON.parse can return. Numbers are integers in this model. */
  datatype Value =
    | Null
    | Bool(b: bool)
    | Number(n: int)
    | Str(s: string)
    | Arr(items: seq<Value>)
    | Obj(members: seq<(string, Value)>)

  /** The result of reading `v.key`: a value, `undefined`, or the TypeError thrown on `null`. */
  datatype Lookup = Undefined | Defined(value: Value) | TypeError

  /** JavaScript truthiness of a value: the falsy ones are null, false, 0 and "". */
  predicate Truthy(v: Value) {
    match v
    case Null => false
    case Bool(b) => b
    case Number(n) => n != 0
    case Str(s) => s != ""
    case Arr(_) => true
    case Obj(_) => true
  }

  /** Truthiness of the result of a property read (`undefined` is falsy). */
  predicate TruthyLookup(l: Lookup) {
    l.Defined? && Truthy(l.value)
  }

  /** `x || d` for a string header or location field that may be missing. */
  function OrString(x: Option<string>, d: string): string {
    if x.Some? && x.value != "" then x.value else d
  }

  /** The last member named `key`: JSON.parse keeps the last of duplicated keys. */
  function LastMember(members: seq<(string, Value)>, key: string): (r: Option<Value>)
    ensures r.Some? <==> exists i :: 0 <= i < |members| && members[i].0 == key
    ensures r.Some? ==> exists i :: 0 <= i < |members| && members[i] == (key, r.value)
  {
    if members == [] then None
    else if members[|members| - 1].0 == key then Some(members[|members| - 1].1)
    else LastMember(members[..|members| - 1], key)
  }

  /** `v[key]` for the keys the core reads ("code", "password"): only an object has them as own
      properties; other primitives and arrays give `undefined`, and `null` throws. */
  function Member(v: Value, key: string): (r: Lookup)
    ensures r.TypeError? <==> v.Null?
    ensures r.Defined? ==> v.Obj?
  {
    match v
    case Null => TypeError
    case Obj(members) =>
      (match LastMember(members, key)
       case Some(x) => Defined(x)
       case None => Undefined)
    case _ => Undefined
  }

  /** `input === v[key]` where `input` is a string: strict equality holds only against a string
      with the same characters. */
  predicate StrictEqualsString(l: Lookup, input: string) {
    l == Defined(Str(input))
  }

  /** What JSON.stringify is given for a payload: an absent password is an omitted key. */
  function ToValue(p: RawPayload): Value {
    Obj([("code", Str(p.code))]
        + (if p.password.Some? then [("password", Str(p.password.value))] else [])
        + [("timestamp", Number(p.timestamp))])
  }

  lemma ToValueFields(p: RawPayload)
    ensures Member(ToValue(p), "code") == Defined(Str(p.code))
    ensures Member(ToValue(p), "password") ==
      (if p.password.Some? then Defined(Str(p.password.value)) else Undefined)
    ensures Member(ToValue(p), "timestamp") == Defined(Number(p.timestamp))
    ensures Truthy(ToValue(p))
  {
    var ms := ToValue(p).members;
    var code := [("code", Str(p.code))];
    assert LastMember(code, "code") == Some(Str(p.code));
    assert LastMember(code, "password") == None;
    assert ms[|ms| - 1] == ("timestamp", Number(p.timestamp));
    var front := ms[..|ms| - 1];
    if p.password.Some? {
      assert front[|front| - 1] == ("password", Str(p.password.value));
      assert front[..|front| - 1] == code;
      assert LastMember(front, "code") == Some(Str(p.code));
    } else {
      assert front == code;
    }
  }

  /** The characters encodeURIComponent can emit: the unreserved marks, ASCII letters and
      digits, and the '%' of its escapes. */
  predicate IsUriComponentChar(c: char) {
    || 'A' <= c <= 'Z' || 'a' <= c <= 'z' || '0' <= c <= '9'
    || c in "-_.!~*'()%"
  }

  predicate IsUriComponentText(s: string) {
    forall i :: 0 <= i < |s| ==> IsUriComponentChar(s[i])
  }

  /** The foreign functions of the runtime. `None` is a thrown exception (URIError, SyntaxError). */
  datatype Runtime = Runtime(
    stringify: Value -> string,
    parse: string -> Option<Value>,
    encodeUriComponent: string -> Option<string>,
    decodeUriComponent: string -> Option<string>)

  /** The laws the core relies on: JSON.parse inverts JSON.stringify on payload records, and
      decodeURIComponent inverts encodeURIComponent, whose output is always URI-component text. */
  ghost predicate Lawful(rt: Runtime) {
    && (forall p: RawPayload :: rt.parse(rt.stringify(ToValue(p))) == Some(ToValue(p)))
    && (forall s: string :: rt.encodeUriComponent(s).Some? ==>
          && IsUriComponentText(rt.encodeUriComponent(s).value)
          && rt.decodeUriComponent(rt.encodeUriComponent(s).value) == Some(s))
  }
}
