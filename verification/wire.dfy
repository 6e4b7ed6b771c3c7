/** The already-parsed JSON tree the codec reads and writes. */
module Wire {

  /** A parsed JSON value. `JInt` is an integral number; `JOther` stands for
      `null` and non-integral numbers, which no decoding rule accepts. */
  datatype Json =
    | JString(s: string)
    | JInt(n: int)
    | JBool(b: bool)
    | JArray(items: seq<Json>)
    | JObject(members: map<string, Json>)
    | JOther

  /** What a response body holds as JSON text: a JSON value, or text that is not
      JSON at all. */
  datatype Payload = Parsed(json: Json) | Unparsable

  /** `JSONSerialization.jsonObject(with:options: [])`: without `.fragmentsAllowed`
      the parser refuses a top-level value that is neither an array nor an object,
      so such a body throws just like text that is not JSON. A parsed document is
      returned as it is. */
  function TopLevel(p: Payload): (r: Payload)
    ensures r.Unparsable? <==> p.Unparsable? || !(p.json.JArray? || p.json.JObject?)
    ensures r.Parsed? ==> r == p && (r.json.JArray? || r.json.JObject?)
  {
    match p
    case Parsed(j) => if j.JArray? || j.JObject? then p else Unparsable
    case Unparsable => Unparsable
  }

  /** `as? [String]` succeeds exactly on arrays of strings. */
  predicate IsStringArray(items: seq<Json>) {
    forall i :: 0 <= i < |items| ==> items[i].JString?
  }

  /** `as? [[String: Any]]` succeeds exactly on arrays of objects. */
  predicate IsObjectArray(items: seq<Json>) {
    forall i :: 0 <= i < |items| ==> items[i].JObject?
  }

  function Strings(items: seq<Json>): (r: seq<string>)
    requires IsStringArray(items)
    ensures |r| == |items|
    ensures forall i :: 0 <= i < |items| ==> items[i] == JString(r[i])
  {
    seq(|items|, i requires 0 <= i < |items| => items[i].s)
  }

  function Objects(items: seq<Json>): (r: seq<map<string, Json>>)
    requires IsObjectArray(items)
    ensures |r| == |items|
    ensures forall i :: 0 <= i < |items| ==> items[i] == JObject(r[i])
  {
    seq(|items|, i requires 0 <= i < |items| => items[i].members)
  }
}
