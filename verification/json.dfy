/** JSON as the transformers see it: a value tree built from the records'
    struct tags, serialized by an abstract marshaller. Nothing is assumed
    about the marshaller beyond being a function that may fail: in
    particular it is not assumed to be injective. */
module Json {
  import opened Results
  import opened Strings

  datatype Json =
    | JNull
    | JBool(b: bool)
    | JInt(i: int)
    | JString(s: string)
    | JArray(items: seq<Json>)
    | JObject(fields: seq<(string, Json)>)

  /** `encoding/json.Marshal`, abstracted. */
  type Marshaller = Json -> Result<string>

  const FALLBACK_PREFIX: string := "GeneralResultToString:"

  /** Go's `GeneralResultToString`: the marshalled text, or on a marshal error
      the error text behind a fixed tag. Any marshaller whose output never
      begins with the tag (JSON text begins with one of `{["-0123456789tfn`)
      lets a reader tell the two apart. */
  function GeneralResultToString(marshal: Marshaller, j: Json): (s: string)
    ensures marshal(j).Ok? ==> s == marshal(j).value
    ensures marshal(j).Err? ==> s == FALLBACK_PREFIX + marshal(j).error
    ensures (marshal(j).Ok? ==> !StartsWith(marshal(j).value, FALLBACK_PREFIX))
              ==> (StartsWith(s, FALLBACK_PREFIX) <==> marshal(j).Err?)
  {
    match marshal(j)
    case Ok(text) => text
    case Err(e) => FALLBACK_PREFIX + e
  }

  /** A string struct field tagged `omitempty`: no member at all when the
      value is empty, otherwise one string member under the tag. */
  function OmitEmptyString(tag: string, value: string): (m: seq<(string, Json)>)
    ensures |m| <= 1
    ensures forall e :: e in m ==> e.0 == tag && e.1.JString? && e.1.s != ""
    ensures (tag, JString(value)) in m <==> value != ""
  {
    if value == "" then [] else [(tag, JString(value))]
  }

  /** A Go slice: `nil` is distinct from an empty, non-nil slice
      (`null` versus `[]` in JSON). */
  datatype Slice<T> = Nil | Items(elems: seq<T>)

  /** The slice obtained by appending `xs` one by one to a nil slice:
      still nil when nothing was appended. */
  function Appended<T>(xs: seq<T>): (s: Slice<T>)
    ensures s.Nil? <==> |xs| == 0
    ensures Elems(s) == xs
  {
    if |xs| == 0 then Nil else Items(xs)
  }

  function Elems<T>(s: Slice<T>): seq<T> {
    match s
    case Nil => []
    case Items(xs) => xs
  }

  function ArrayOf<T>(xs: seq<T>, f: T -> Json): (j: Json)
    ensures j.JArray? && |j.items| == |xs|
  {
    JArray(seq(|xs|, i requires 0 <= i < |xs| => f(xs[i])))
  }

  /** Default marshalling of a Go slice: `null` for nil, an array otherwise. */
  function SliceJson<T>(s: Slice<T>, f: T -> Json): Json {
    match s
    case Nil => JNull
    case Items(xs) => ArrayOf(xs, f)
  }
}
