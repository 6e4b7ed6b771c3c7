/** The value representation and field schema of the Airtable client
    (`AirtableValue`, `AirtableAttachment`, `AirtableTableSchemaFieldKey`,
    `AirtableTableSchema`) and the Foundation behaviour they borrow. */
module Fields {
  import opened Common
  import opened Wire

  // ---------------------------------------------------------------- dates

  /** A point in time (`Date`), counted from 1970-01-01T00:00:00Z. */
  datatype Instant = Instant(sinceEpoch: int)

  /** `Date(timeIntervalSince1970: 0)`, the "unset date" sentinel. */
  const Epoch: Instant := Instant(0)

  // ---------------------------------------------------------- attachments

  /** A file reference. `updatedUrl` is a dirty flag raised by `SetUrl`. */
  datatype AirtableAttachment = AirtableAttachment(fileName: string, url: string, updatedUrl: bool)

  /** `AirtableAttachment(fileName:url:)`: a fresh attachment is clean. */
  function NewAttachment(fileName: string, url: string): (a: AirtableAttachment)
    ensures a.fileName == fileName && a.url == url && !a.updatedUrl
  {
    AirtableAttachment(fileName, url, false)
  }

  /** Assigning `url`; the `didSet` observer raises the flag when the url changes. */
  function SetUrl(a: AirtableAttachment, url: string): AirtableAttachment
  {
    a.(url := url, updatedUrl := a.updatedUrl || url != a.url)
  }

  /** Successive assignments of `urls` to the `url` property. */
  function AssignUrls(a: AirtableAttachment, urls: seq<string>): AirtableAttachment
    decreases |urls|
  {
    if urls == [] then a else AssignUrls(SetUrl(a, urls[0]), urls[1..])
  }

  /** The url held just before the `i`-th assignment of `urls`. */
  function UrlBefore(a: AirtableAttachment, urls: seq<string>, i: nat): string
    requires i < |urls|
  {
    if i == 0 then a.url else urls[i - 1]
  }

  /** The dirty flag never reverts: after any run of assignments it is set exactly
      when it was set before or one assignment changed the url. The file name is
      untouched and the url is the last one assigned. */
  lemma {:induction false} AssignUrlsDirtyFlag(a: AirtableAttachment, urls: seq<string>)
    ensures AssignUrls(a, urls).updatedUrl <==>
      a.updatedUrl || exists i :: 0 <= i < |urls| && urls[i] != UrlBefore(a, urls, i)
    ensures AssignUrls(a, urls).fileName == a.fileName
    ensures AssignUrls(a, urls).url == if urls == [] then a.url else urls[|urls| - 1]
    decreases |urls|
  {
    if urls != [] {
      var a' := SetUrl(a, urls[0]);
      var rest := urls[1..];
      AssignUrlsDirtyFlag(a', rest);
      assert forall j :: 0 <= j < |rest| ==> UrlBefore(a', rest, j) == UrlBefore(a, urls, j + 1);
      if AssignUrls(a, urls).updatedUrl && !a.updatedUrl && urls[0] == a.url {
        var j :| 0 <= j < |rest| && rest[j] != UrlBefore(a', rest, j);
        assert urls[j + 1] != UrlBefore(a, urls, j + 1);
      }
      if exists i :: 0 <= i < |urls| && urls[i] != UrlBefore(a, urls, i) {
        var i :| 0 <= i < |urls| && urls[i] != UrlBefore(a, urls, i);
        if i > 0 {
          assert rest[i - 1] != UrlBefore(a', rest, i - 1);
        }
      }
    }
  }

  /** `==` on attachments compares `fileName` and `url` only. */
  predicate SameAttachment(a: AirtableAttachment, b: AirtableAttachment) {
    a.fileName == b.fileName && a.url == b.url
  }

  /** Attachment equality is structural equality once the dirty flag is disregarded,
      and it is an equivalence. */
  lemma SameAttachmentIsEqualityUpToFlag(a: AirtableAttachment, b: AirtableAttachment, c: AirtableAttachment)
    ensures SameAttachment(a, b) <==> a.(updatedUrl := false) == b.(updatedUrl := false)
    ensures SameAttachment(a, a)
    ensures SameAttachment(a, b) ==> SameAttachment(b, a)
    ensures SameAttachment(a, b) && SameAttachment(b, c) ==> SameAttachment(a, c)
  {
  }

  // --------------------------------------------------------------- values

  /** A concrete `AirtableValue`: one case per built-in adopter the codec meets
      (`String`/`NSString`, `Int`, `Bool`, `Date`/`NSDate`, `Array`, `Dictionary`,
      `AirtableAttachment`). */
  datatype Value =
    | VString(s: string)
    | VInt(i: Int64)
    | VBool(b: bool)
    | VDate(t: Instant)
    | VArray(items: seq<Value>)
    | VDict(entries: map<string, Value>)
    | VAttachment(a: AirtableAttachment)

  /** `as? [AirtableAttachment]` succeeds exactly on arrays of attachments. */
  predicate AllAttachments(xs: seq<Value>) {
    forall i :: 0 <= i < |xs| ==> xs[i].VAttachment?
  }

  // ----------------------------------------------------------- field keys

  /** `AirtableTableSchemaFieldKey.KeyType`. */
  datatype KeyType =
    | SingleLineText
    | SingleSelect
    | Number
    | LinkToAnotherRecord
    | DateWithHour
    | Attachment
    | Checkbox

  /** A (name, kind) column identity; Dafny's structural equality is the source's `==`,
      and map keys hash deterministically on it. */
  datatype FieldKey = FieldKey(fieldName: string, fieldType: KeyType)

  /** The ordered keys of one table. */
  datatype TableSchema = TableSchema(fieldsKeys: seq<FieldKey>)

  /** `[AirtableTableSchemaFieldKey: AirtableValue]`. */
  type Record = map<FieldKey, Value>

  /** Reading a dictionary entry. */
  function Lookup(r: Record, k: FieldKey): Option<Value> {
    if k in r then Some(r[k]) else None
  }

  /** `r[k] = o`: assigning `nil` removes the entry. */
  function Put(r: Record, k: FieldKey, o: Option<Value>): (r': Record)
    ensures Lookup(r', k) == o
    ensures forall k' :: k' != k ==> Lookup(r', k') == Lookup(r, k')
  {
    match o
    case Some(v) => r[k := v]
    case None => r - {k}
  }

  /** No two keys of the sequence share a field name. */
  predicate DistinctNames(keys: seq<FieldKey>) {
    forall i, j :: 0 <= i < j < |keys| ==> keys[i].fieldName != keys[j].fieldName
  }

  /** No two keys of the record share a field name. */
  predicate UniqueNames(r: Record) {
    forall k1, k2 :: k1 in r && k2 in r && k1.fieldName == k2.fieldName ==> k1 == k2
  }

  // --------------------------------------------------------------- errors

  /** Why building a request body stops the program. Neither is a Swift error the
      `do`/`catch` around the body can catch: the first is a runtime trap, the second
      an Objective-C exception. */
  datatype EncodeFailure =
    | DateWithoutDigits   // `split(separator: ".").first!` found nothing to unwrap
    | NotSerializable     // `JSONSerialization.data` met a date or an attachment

  /** The errors a completion handler can receive. */
  datatype AirtableError =
    | InvalidFormat                 // `AirtableResponseError.invalidFormat`
    | MalformedJson                 // `JSONSerialization.jsonObject` threw
    | Transport(reason: string)     // the URL session reported an error

  // ------------------------------------------------------------- runtime

  /** The Foundation and Swift-runtime behaviour the codec relies on but does not
      define: `description` of values without their own string form, `URL(string:)`,
      the `yyyy-MM-dd'T'HH:mm:ss.SSSZZZZ` date formatter in both directions, and the
      iteration order of a dictionary keyed by field keys. */
  datatype Runtime = Runtime(
    describe: Value -> string,
    urlFromString: string -> Option<string>,
    parseDate: string -> Option<Instant>,
    formatDate: Instant -> string,
    keyOrder: Record -> seq<FieldKey>)

  /** `ks` visits every key of `r` exactly once. */
  predicate IsEnumeration(ks: seq<FieldKey>, r: Record) {
    && Distinct(ks)
    && (forall i :: 0 <= i < |ks| ==> ks[i] in r)
    && (forall k | k in r :: k in ks)
  }

  /** Dictionary iteration visits every entry once. */
  ghost predicate ValidRuntime(rt: Runtime) {
    forall r: Record :: IsEnumeration(rt.keyOrder(r), r)
  }

  // ---------------------------------------------------------- projections

  function DigitChar(d: nat): char
    requires d < 10
  {
    "0123456789"[d]
  }

  function DigitOf(c: char): nat {
    if '0' <= c <= '9' then (c as int - '0' as int) as nat else 0
  }

  /** Decimal digits of a natural number, most significant first. */
  function NatDigits(n: nat): (r: string)
    ensures |r| > 0
    ensures forall i :: 0 <= i < |r| ==> '0' <= r[i] <= '9'
    decreases n
  {
    if n < 10 then [DigitChar(n)] else NatDigits(n / 10) + [DigitChar(n % 10)]
  }

  /** Reads a string of decimal digits. */
  function ParseNat(s: string): nat
    decreases |s|
  {
    if s == [] then 0 else 10 * ParseNat(s[..|s| - 1]) + DigitOf(s[|s| - 1])
  }

  /** Reading back the digits gives the number, so distinct numbers print differently. */
  lemma {:induction false} ParseNatDigits(n: nat)
    ensures ParseNat(NatDigits(n)) == n
    decreases n
  {
    if n >= 10 {
      var s := NatDigits(n / 10) + [DigitChar(n % 10)];
      assert s[..|s| - 1] == NatDigits(n / 10);
      ParseNatDigits(n / 10);
    }
  }

  /** `Int.description`. */
  function IntDescription(i: int): (r: string)
    ensures |r| > 0
    ensures (r[0] == '-') <==> i < 0
  {
    if i < 0 then "-" + NatDigits(-i) else NatDigits(i)
  }

  /** `stringValue`: the text itself, the decimal or `true`/`false` description, the
      attachment's fixed pattern (whose parenthesis is never closed), and otherwise
      the Foundation `description`. */
  function StringValue(v: Value, rt: Runtime): string {
    match v
    case VString(s) => s
    case VInt(i) => IntDescription(i)
    case VBool(b) => if b then "true" else "false"
    case VAttachment(a) => "AirtableAttachment - (id:, url:" + a.url
    case _ => rt.describe(v)
  }

  /** `intValue`: only `Int` overrides the `Int.min` default. */
  function IntValue(v: Value): Int64 {
    if v.VInt? then v.i else MinInt64
  }

  /** `boolValue`: only `Bool` overrides the `false` default. */
  function BoolValue(v: Value): bool {
    v.VBool? && v.b
  }

  /** `dateValue`: only dates override the epoch default. */
  function DateValue(v: Value): Instant {
    if v.VDate? then v.t else Epoch
  }

  /** `arrayValue`: only arrays override the `[]` default. */
  function ArrayValue(v: Value): seq<Value> {
    if v.VArray? then v.items else []
  }

  /** `dictionaryValue`: only dictionaries override the `[:]` default. */
  function DictionaryValue(v: Value): map<string, Value> {
    if v.VDict? then v.entries else map[]
  }

  /** `urlValue`: only attachments override the `nil` default, via `URL(string:)`. */
  function UrlValue(v: Value, rt: Runtime): Option<string> {
    if v.VAttachment? then rt.urlFromString(v.a.url) else None
  }

  /** Reads an optionally negative decimal. */
  function ParseInt(s: string): int {
    if |s| > 0 && s[0] == '-' then 0 - ParseNat(s[1..]) else ParseNat(s)
  }

  /** `Int.description` reads back as the number. */
  lemma IntDescriptionReadsBack(i: int)
    ensures ParseInt(IntDescription(i)) == i
  {
    if i < 0 {
      NegativeReadsBack(-i);
      assert IntDescription(i) == "-" + NatDigits(-i);
    } else {
      NonNegativeReadsBack(i);
      assert IntDescription(i) == NatDigits(i);
    }
  }

  lemma NegativeReadsBack(n: nat)
    ensures ParseInt("-" + NatDigits(n)) == 0 - n
  {
    var d := NatDigits(n);
    var s := "-" + d;
    assert s[1..] == d;
    ParseNatDigits(n);
  }

  lemma NonNegativeReadsBack(n: nat)
    ensures ParseInt(NatDigits(n)) == n
  {
    var s := NatDigits(n);
    assert s[0] != '-';
    ParseNatDigits(n);
  }

  /** Each adopter answers its own projection with its own content and every other
      projection with the fixed sentinel; in particular `stringValue` and `intValue`
      of an `Int` agree, the text reading back as the number, and the texts of two
      values are equal only when the values are. */
  lemma ProjectionsAreOwnOrSentinel(v: Value, w: Value, rt: Runtime)
    ensures v.VInt? ==> ParseInt(StringValue(v, rt)) == IntValue(v)
    ensures v.VInt? && w.VInt? && StringValue(v, rt) == StringValue(w, rt) ==> v == w
    ensures v.VString? ==> StringValue(v, rt) == v.s && IntValue(v) == MinInt64 && !BoolValue(v)
    ensures !v.VInt? ==> IntValue(v) == MinInt64
    ensures !v.VBool? ==> !BoolValue(v)
    ensures !v.VDate? ==> DateValue(v) == Epoch
    ensures !v.VArray? ==> ArrayValue(v) == []
    ensures !v.VDict? ==> DictionaryValue(v) == map[]
    ensures !v.VAttachment? ==> UrlValue(v, rt) == None
  {
    if v.VInt? {
      IntDescriptionReadsBack(v.i);
      if w.VInt? {
        IntDescriptionReadsBack(w.i);
      }
    }
  }

  // ------------------------------------------------------- serialisation

  /** `JSONSerialization.data(withJSONObject:)` accepts strings, numbers, booleans,
      arrays and string-keyed dictionaries of those; dates and attachments make it fail. */
  function ToJson(v: Value): (r: Option<Json>)
    ensures r.Some? && v.VDict? ==> r.value.JObject? && r.value.members.Keys == v.entries.Keys
  {
    match v
    case VString(s) => Some(JString(s))
    case VInt(i) => Some(JInt(i))
    case VBool(b) => Some(JBool(b))
    case VArray(xs) =>
      if forall i | 0 <= i < |xs| :: ToJson(xs[i]).Some?
      then Some(JArray(seq(|xs|, i requires 0 <= i < |xs| => ToJson(xs[i]).value)))
      else None
    case VDict(m) =>
      if forall k | k in m :: ToJson(m[k]).Some?
      then Some(JObject(map k | k in m :: ToJson(m[k]).value))
      else None
    case VDate(_) => None
    case VAttachment(_) => None
  }
}
