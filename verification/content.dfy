/** The demo app's `Content` type, one row of the `content` table, and its
    `AirtableObject` conformance: the field list, the initializer from a decoded
    record, and `value(forKey:)`. */
module ContentModel {
  import opened Common
  import opened Wire
  import opened Fields
  import opened Decoder
  import opened Encoder
  import opened Codec

  // ------------------------------------------------------------ view type

  /** The screen a content row asks for. */
  datatype ViewType = Hi | Bye | Middle | Settings

  function ViewTypeRaw(t: ViewType): string {
    match t
    case Hi => "HiView"
    case Bye => "ByeView"
    case Middle => "MiddleView"
    case Settings => "SettingsView"
  }

  /** `ViewType(rawValue:)`: the case whose raw value is `s`, if any. */
  function ViewTypeFromRaw(s: string): (r: Option<ViewType>)
    ensures forall t :: r == Some(t) <==> ViewTypeRaw(t) == s
  {
    if s == "HiView" then Some(Hi)
    else if s == "ByeView" then Some(Bye)
    else if s == "MiddleView" then Some(Middle)
    else if s == "SettingsView" then Some(Settings)
    else None
  }

  // -------------------------------------------------------------- content

  /** `Content`; `rawType` is the stored `_type` text. */
  datatype Content = Content(id: string, rawType: string, title: string, position: Int64)

  /** A content value before the initializer reads any entry. */
  function Blank(id: string): Content {
    Content(id, "", "", 0)
  }

  /** `type`: the view type named by the stored text, and `hi` when the text names
      none (the empty default included). */
  function TypeOf(c: Content): (t: ViewType)
    ensures ViewTypeRaw(t) == c.rawType || (t == Hi && forall u :: ViewTypeRaw(u) != c.rawType)
  {
    match ViewTypeFromRaw(c.rawType)
    case Some(t) => t
    case None => Hi
  }

  // --------------------------------------------------------------- fields

  /** `Content.AirtableField`. */
  datatype ContentField = View | Position | Title

  /** `allCases`, in declaration order. */
  const AllFields: seq<ContentField> := [View, Position, Title]

  function FieldRaw(f: ContentField): string {
    match f
    case View => "view"
    case Position => "position"
    case Title => "title"
  }

  /** `AirtableField(rawValue:)`. */
  function FieldFromRaw(s: string): (r: Option<ContentField>)
    ensures forall f :: r == Some(f) <==> FieldRaw(f) == s
  {
    if s == "view" then Some(View)
    else if s == "position" then Some(Position)
    else if s == "title" then Some(Title)
    else None
  }

  function FieldKind(f: ContentField): KeyType {
    match f
    case View => SingleSelect
    case Position => Number
    case Title => SingleLineText
  }

  function KeyOf(f: ContentField): FieldKey {
    FieldKey(FieldRaw(f), FieldKind(f))
  }

  /** `fieldKeys`: one key per field, in declaration order. */
  function FieldKeys(): (ks: seq<FieldKey>)
    ensures ks == [FieldKey("view", SingleSelect), FieldKey("position", Number), FieldKey("title", SingleLineText)]
  {
    seq(|AllFields|, i requires 0 <= i < |AllFields| => KeyOf(AllFields[i]))
  }

  /** `schema`, built from `fieldKeys`. */
  function Schema(): (s: TableSchema)
    ensures DistinctNames(s.fieldsKeys)
    ensures forall f :: KeyOf(f) in s.fieldsKeys
  {
    TableSchema(FieldKeys())
  }

  // ---------------------------------------------------------- initializer

  /** The stored value behind a field, as the codec would carry it. */
  function Slot(c: Content, f: ContentField): Value {
    match f
    case View => VString(c.rawType)
    case Position => VInt(c.position)
    case Title => VString(c.title)
  }

  /** What the initializer stores for field `f` from record value `v`: the
      `stringValue` for view and title, the `intValue` for position. */
  function Read(f: ContentField, v: Value, rt: Runtime): Value {
    match f
    case View | Title => VString(StringValue(v, rt))
    case Position => VInt(IntValue(v))
  }

  /** One iteration of the initializer's `forEach`: an entry is matched to a field by
      its name alone, whatever its kind, and entries of other names change nothing. */
  function InitStep(c: Content, k: FieldKey, v: Value, rt: Runtime): (c': Content)
    ensures c'.id == c.id
    ensures forall f :: Slot(c', f) == if FieldRaw(f) == k.fieldName then Read(f, v, rt) else Slot(c, f)
  {
    match FieldFromRaw(k.fieldName)
    case None => c
    case Some(View) => c.(rawType := StringValue(v, rt))
    case Some(Position) => c.(position := IntValue(v))
    case Some(Title) => c.(title := StringValue(v, rt))
  }

  /** The `forEach` over the record's entries, in dictionary order `ks`. */
  function InitFrom(c: Content, ks: seq<FieldKey>, r: Record, rt: Runtime): (c': Content)
    requires forall i :: 0 <= i < |ks| ==> ks[i] in r
    ensures c'.id == c.id
    decreases |ks|
  {
    if ks == [] then c else InitFrom(InitStep(c, ks[0], r[ks[0]], rt), ks[1..], r, rt)
  }

  /** `init(withId:populatedTableSchemaKeys:)`. */
  function Init(id: string, r: Record, rt: Runtime): Content
    requires ValidRuntime(rt)
  {
    InitFrom(Blank(id), rt.keyOrder(r), r, rt)
  }

  /** The initializer as the codec's `make` parameter. */
  function Make(rt: Runtime): (string, Record) -> Content
    requires ValidRuntime(rt)
  {
    (id, r) => Init(id, r, rt)
  }

  /** A field no visited entry names keeps its starting value. */
  lemma {:induction false} InitFromUntouched(c: Content, ks: seq<FieldKey>, r: Record, rt: Runtime, f: ContentField)
    requires forall i :: 0 <= i < |ks| ==> ks[i] in r
    requires forall i :: 0 <= i < |ks| ==> ks[i].fieldName != FieldRaw(f)
    ensures Slot(InitFrom(c, ks, r, rt), f) == Slot(c, f)
    decreases |ks|
  {
    if ks != [] {
      var tail := ks[1..];
      assert forall i :: 0 <= i < |tail| ==> tail[i] == ks[i + 1];
      InitFromUntouched(InitStep(c, ks[0], r[ks[0]], rt), tail, r, rt, f);
    }
  }

  /** Last wins: a field ends up with what the last entry of its name, in visiting
      order, makes of its value. */
  lemma {:induction false} InitFromLastWins(c: Content, ks: seq<FieldKey>, r: Record, rt: Runtime, f: ContentField, i: nat)
    requires forall j :: 0 <= j < |ks| ==> ks[j] in r
    requires i < |ks| && ks[i].fieldName == FieldRaw(f)
    requires forall j :: i < j < |ks| ==> ks[j].fieldName != FieldRaw(f)
    ensures Slot(InitFrom(c, ks, r, rt), f) == Read(f, r[ks[i]], rt)
    decreases |ks|
  {
    var c' := InitStep(c, ks[0], r[ks[0]], rt);
    var tail := ks[1..];
    assert forall j :: 0 <= j < |tail| ==> tail[j] == ks[j + 1];
    if i == 0 {
      InitFromUntouched(c', tail, r, rt, f);
    } else {
      InitFromLastWins(c', tail, r, rt, f, i - 1);
    }
  }

  /** For a record with unique field names, each field holds what the entry of its
      name makes of its value, or its default when there is no such entry. */
  lemma InitSlot(id: string, r: Record, rt: Runtime, f: ContentField)
    requires ValidRuntime(rt)
    requires UniqueNames(r)
    ensures Init(id, r, rt).id == id
    ensures forall k :: k in r && k.fieldName == FieldRaw(f) ==> Slot(Init(id, r, rt), f) == Read(f, r[k], rt)
    ensures (forall k :: k in r ==> k.fieldName != FieldRaw(f)) ==> Slot(Init(id, r, rt), f) == Slot(Blank(id), f)
  {
    var ks := rt.keyOrder(r);
    assert IsEnumeration(ks, r);
    forall k | k in r && k.fieldName == FieldRaw(f) ensures Slot(Init(id, r, rt), f) == Read(f, r[k], rt) {
      var i :| 0 <= i < |ks| && ks[i] == k;
      forall j | i < j < |ks| ensures ks[j].fieldName != FieldRaw(f) {
        assert ks[j] != ks[i];
      }
      InitFromLastWins(Blank(id), ks, r, rt, f, i);
    }
    if forall k :: k in r ==> k.fieldName != FieldRaw(f) {
      InitFromUntouched(Blank(id), ks, r, rt, f);
    }
  }

  /** The initializer reads view and title through `stringValue` and position through
      `intValue`, matching entries by name only; a field without an entry keeps its
      default (`""`, `""`, `0`). */
  lemma InitReads(id: string, r: Record, rt: Runtime)
    requires ValidRuntime(rt)
    requires UniqueNames(r)
    ensures var c := Init(id, r, rt);
      && c.id == id
      && (forall k :: k in r && k.fieldName == "view" ==> c.rawType == StringValue(r[k], rt))
      && (forall k :: k in r && k.fieldName == "position" ==> c.position == IntValue(r[k]))
      && (forall k :: k in r && k.fieldName == "title" ==> c.title == StringValue(r[k], rt))
      && ((forall k :: k in r ==> k.fieldName != "view") ==> c.rawType == "")
      && ((forall k :: k in r ==> k.fieldName != "position") ==> c.position == 0)
      && ((forall k :: k in r ==> k.fieldName != "title") ==> c.title == "")
  {
    InitSlot(id, r, rt, View);
    InitSlot(id, r, rt, Position);
    InitSlot(id, r, rt, Title);
  }

  // ------------------------------------------------------- value(forKey:)

  /** `value(forKey:)`: an answer exactly for the three schema keys, compared by name
      and kind; each answer has the JSON shape its key's kind reads back. */
  function ValueFor(c: Content, k: FieldKey): (r: Option<Value>)
    ensures r.Some? <==> k in FieldKeys()
    ensures r.Some? ==> Plain(k, r.value)
  {
    if k == FieldKey("view", SingleSelect) then Some(VString(c.rawType))
    else if k == FieldKey("position", Number) then Some(VInt(c.position))
    else if k == FieldKey("title", SingleLineText) then Some(VString(c.title))
    else None
  }

  /** The object's answers, as `populateAllFields` asks for them. */
  function Answers(c: Content): FieldKey -> Option<Value> {
    k => ValueFor(c, k)
  }

  // ----------------------------------------------------------- round trips

  /** Initializing from a record with text view and title and an integer position,
      then asking for each schema key, gives back the record's values. */
  lemma InitThenValueFor(id: string, r: Record, rt: Runtime)
    requires ValidRuntime(rt)
    requires UniqueNames(r)
    requires forall k :: k in FieldKeys() && k in r ==> Plain(k, r[k])
    ensures forall k :: k in FieldKeys() && k in r ==> ValueFor(Init(id, r, rt), k) == Some(r[k])
  {
    InitReads(id, r, rt);
  }

  /** Populating the schema keys from a content value and initializing from the
      result rebuilds the same value. */
  lemma ValueForThenInit(c: Content, rt: Runtime)
    requires ValidRuntime(rt)
    ensures Init(c.id, PopulateAllFields(FieldKeys(), Answers(c)), rt) == c
  {
    var r := PopulateAllFields(FieldKeys(), Answers(c));
    PopulatedUniqueNames(FieldKeys(), Answers(c));
    InitReads(c.id, r, rt);
    assert Lookup(r, KeyOf(View)).Some? && Lookup(r, KeyOf(Position)).Some? && Lookup(r, KeyOf(Title)).Some?;
  }

  /** The whole wire round trip: the request body written for a content value, read
      back as a row's `fields` with the same schema, initializes the same value. */
  lemma WireRoundTripContent(c: Content, rt: Runtime)
    requires ValidRuntime(rt)
    ensures EncodeObject(Schema(), Answers(c), rt).Ok?
    ensures var w := EncodeObject(Schema(), Answers(c), rt).value.members["fields"].members;
      Init(c.id, DecodeRecord(Schema(), w, rt), rt) == c
  {
    assert PlainAnswers(Schema().fieldsKeys, Answers(c));
    WireRoundTrip(Schema(), Answers(c), rt);
    ValueForThenInit(c, rt);
  }

  /** The `fields` of the example row `rec1`. */
  const WelcomeFields: map<string, Json> :=
    map["view" := JString("HiView"), "position" := JInt(1), "title" := JString("Welcome")]

  /** Writing content `rec1` (view `HiView`, position 1, title "Welcome") gives the
      body `{"fields": {"view": "HiView", "position": 1, "title": "Welcome"}}`. */
  lemma WelcomeEncoding(rt: Runtime)
    requires ValidRuntime(rt)
    ensures EncodeObject(Schema(), Answers(Content("rec1", "HiView", "Welcome", 1)), rt)
         == Ok(JObject(map["fields" := JObject(WelcomeFields)]))
  {
    var c := Content("rec1", "HiView", "Welcome", 1);
    var keys := Schema().fieldsKeys;
    assert PlainAnswers(keys, Answers(c));
    EncodedFields(Schema(), Answers(c), rt);
    var w := EncodeObject(Schema(), Answers(c), rt).value.members["fields"].members;
    var kv, kp, kt := KeyOf(View), KeyOf(Position), KeyOf(Title);
    assert keys == [kv, kp, kt];
    assert Answers(c)(kv) == Some(VString("HiView"));
    assert Answers(c)(kp) == Some(VInt(1));
    assert Answers(c)(kt) == Some(VString("Welcome"));
    assert w["view"] == JString("HiView");
    assert w["position"] == JInt(1);
    assert w["title"] == JString("Welcome");
    forall n | n in w ensures n in WelcomeFields {
      var k :| k in keys && k.fieldName == n && Answers(c)(k).Some?;
      assert k == kv || k == kp || k == kt;
    }
    SameFields(w);
  }

  /** A `fields` object with exactly the example's three entries is the example's. */
  lemma SameFields(w: map<string, Json>)
    requires forall n | n in w :: n in WelcomeFields
    requires "view" in w && w["view"] == JString("HiView")
    requires "position" in w && w["position"] == JInt(1)
    requires "title" in w && w["title"] == JString("Welcome")
    ensures w == WelcomeFields
  {
    assert w.Keys == WelcomeFields.Keys;
  }

  /** The example's `fields` object decodes and initializes to content `rec1` at
      position 1 with view "HiView" and title "Welcome". */
  lemma WelcomeFieldsDecode(rt: Runtime)
    requires ValidRuntime(rt)
    ensures Init("rec1", DecodeRecord(Schema(), WelcomeFields, rt), rt) == Content("rec1", "HiView", "Welcome", 1)
  {
    var c := Content("rec1", "HiView", "Welcome", 1);
    WelcomeEncoding(rt);
    WireRoundTripContent(c, rt);
  }

  /** The row `{"id": "rec1", "fields": …}` in a `records` list decodes to content
      `rec1` of view type `hi` at position 1 titled "Welcome", and writing that
      content back gives the same `fields` object. */
  lemma WelcomeRow(rt: Runtime)
    requires ValidRuntime(rt)
    ensures var row := map["id" := JString("rec1"), "fields" := JObject(WelcomeFields)];
      var res := HandleFetchResponse(Parsed(JObject(map["records" := JArray([JObject(row)])])), Schema(), rt, Make(rt));
      && res == FetchResult([Content("rec1", "HiView", "Welcome", 1)], None)
      && TypeOf(res.objects[0]) == Hi
      && EncodeObject(Schema(), Answers(res.objects[0]), rt) == Ok(JObject(map["fields" := JObject(WelcomeFields)]))
  {
    var row := map["id" := JString("rec1"), "fields" := JObject(WelcomeFields)];
    var items := [JObject(row)];
    var top := map["records" := JArray(items)];
    assert IsObjectArray(items);
    assert Objects(items) == [row];
    FetchShapes(top, Schema(), rt, Make(rt));
    ExtractObjectsSingle(row, Schema(), rt, Make(rt));
    WelcomeFieldsDecode(rt);
    WelcomeEncoding(rt);
  }
}
