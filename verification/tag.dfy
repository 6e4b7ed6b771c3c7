/** The demo app's `Tag` type, one row of the `tags` table, and its
    `AirtableObject` conformance: the field list, the initializer from a decoded
    record, and `value(forKey:)`. */
module TagModel {
  import opened Common
  import opened Wire
  import opened Fields
  import opened Decoder
  import opened Encoder
  import opened Codec

  // ------------------------------------------------------------------ tag

  /** `Tag`; `rawCategory` is the stored `_category` text. */
  datatype Tag = Tag(id: string, value: string, rawCategory: string)

  /** A tag before the initializer reads any entry. */
  function Blank(id: string): Tag {
    Tag(id, "", "")
  }

  /** `category`: the case `fromRaw` finds for the stored text, and `fruit` when it
      finds none. The category enumeration is given as its raw-value initializer
      `fromRaw` and its `fruit` case. */
  function CategoryOf<C>(t: Tag, fromRaw: string -> Option<C>, fruit: C): (c: C)
    ensures fromRaw(t.rawCategory).Some? ==> fromRaw(t.rawCategory) == Some(c)
    ensures fromRaw(t.rawCategory).None? ==> c == fruit
  {
    match fromRaw(t.rawCategory)
    case Some(c) => c
    case None => fruit
  }

  // --------------------------------------------------------------- fields

  /** `Tag.AirtableField`. */
  datatype TagField = TagName | CategoryName

  /** `allCases`, in declaration order. */
  const AllFields: seq<TagField> := [TagName, CategoryName]

  function FieldRaw(f: TagField): string {
    match f
    case TagName => "tag"
    case CategoryName => "category"
  }

  /** `AirtableField(rawValue:)`. */
  function FieldFromRaw(s: string): (r: Option<TagField>)
    ensures forall f :: r == Some(f) <==> FieldRaw(f) == s
  {
    if s == "tag" then Some(TagName)
    else if s == "category" then Some(CategoryName)
    else None
  }

  function FieldKind(f: TagField): KeyType {
    match f
    case TagName => SingleLineText
    case CategoryName => SingleSelect
  }

  function KeyOf(f: TagField): FieldKey {
    FieldKey(FieldRaw(f), FieldKind(f))
  }

  /** `fieldKeys`: one key per field, in declaration order. */
  function FieldKeys(): (ks: seq<FieldKey>)
    ensures ks == [FieldKey("tag", SingleLineText), FieldKey("category", SingleSelect)]
  {
    seq(|AllFields|, i requires 0 <= i < |AllFields| => KeyOf(AllFields[i]))
  }

  /** `schema`, built from `fieldKeys`. */
  function Schema(): (s: TableSchema)
    ensures DistinctNames(s.fieldsKeys)
    ensures forall f :: KeyOf(f) in s.fieldsKeys
  {
    TableSchema(FieldKeys())
  }

  // ---------------------------------------------------------- initializer

  /** The stored text behind a field. */
  function Slot(t: Tag, f: TagField): string {
    match f
    case TagName => t.value
    case CategoryName => t.rawCategory
  }

  /** One iteration of the initializer's `forEach`: an entry is matched to a field by
      its name alone, whatever its kind, and stores the value's `stringValue`;
      entries of other names change nothing. */
  function InitStep(t: Tag, k: FieldKey, v: Value, rt: Runtime): (t': Tag)
    ensures t'.id == t.id
    ensures forall f :: Slot(t', f) == if FieldRaw(f) == k.fieldName then StringValue(v, rt) else Slot(t, f)
  {
    match FieldFromRaw(k.fieldName)
    case None => t
    case Some(TagName) => t.(value := StringValue(v, rt))
    case Some(CategoryName) => t.(rawCategory := StringValue(v, rt))
  }

  /** The `forEach` over the record's entries, in dictionary order `ks`. */
  function InitFrom(t: Tag, ks: seq<FieldKey>, r: Record, rt: Runtime): (t': Tag)
    requires forall i :: 0 <= i < |ks| ==> ks[i] in r
    ensures t'.id == t.id
    decreases |ks|
  {
    if ks == [] then t else InitFrom(InitStep(t, ks[0], r[ks[0]], rt), ks[1..], r, rt)
  }

  /** `init(withId:populatedTableSchemaKeys:)`. */
  function Init(id: string, r: Record, rt: Runtime): Tag
    requires ValidRuntime(rt)
  {
    InitFrom(Blank(id), rt.keyOrder(r), r, rt)
  }

  /** The initializer as the codec's `make` parameter. */
  function Make(rt: Runtime): (string, Record) -> Tag
    requires ValidRuntime(rt)
  {
    (id, r) => Init(id, r, rt)
  }

  /** A field no visited entry names keeps its starting value. */
  lemma {:induction false} InitFromUntouched(t: Tag, ks: seq<FieldKey>, r: Record, rt: Runtime, f: TagField)
    requires forall i :: 0 <= i < |ks| ==> ks[i] in r
    requires forall i :: 0 <= i < |ks| ==> ks[i].fieldName != FieldRaw(f)
    ensures Slot(InitFrom(t, ks, r, rt), f) == Slot(t, f)
    decreases |ks|
  {
    if ks != [] {
      var tail := ks[1..];
      assert forall i :: 0 <= i < |tail| ==> tail[i] == ks[i + 1];
      InitFromUntouched(InitStep(t, ks[0], r[ks[0]], rt), tail, r, rt, f);
    }
  }

  /** Last wins: a field ends up with the `stringValue` of the last entry of its
      name, in visiting order. */
  lemma {:induction false} InitFromLastWins(t: Tag, ks: seq<FieldKey>, r: Record, rt: Runtime, f: TagField, i: nat)
    requires forall j :: 0 <= j < |ks| ==> ks[j] in r
    requires i < |ks| && ks[i].fieldName == FieldRaw(f)
    requires forall j :: i < j < |ks| ==> ks[j].fieldName != FieldRaw(f)
    ensures Slot(InitFrom(t, ks, r, rt), f) == StringValue(r[ks[i]], rt)
    decreases |ks|
  {
    var t' := InitStep(t, ks[0], r[ks[0]], rt);
    var tail := ks[1..];
    assert forall j :: 0 <= j < |tail| ==> tail[j] == ks[j + 1];
    if i == 0 {
      InitFromUntouched(t', tail, r, rt, f);
    } else {
      InitFromLastWins(t', tail, r, rt, f, i - 1);
    }
  }

  /** For a record with unique field names, each field holds the `stringValue` of
      the entry of its name, or `""` when there is no such entry. */
  lemma InitSlot(id: string, r: Record, rt: Runtime, f: TagField)
    requires ValidRuntime(rt)
    requires UniqueNames(r)
    ensures Init(id, r, rt).id == id
    ensures forall k :: k in r && k.fieldName == FieldRaw(f) ==> Slot(Init(id, r, rt), f) == StringValue(r[k], rt)
    ensures (forall k :: k in r ==> k.fieldName != FieldRaw(f)) ==> Slot(Init(id, r, rt), f) == ""
  {
    var ks := rt.keyOrder(r);
    assert IsEnumeration(ks, r);
    forall k | k in r && k.fieldName == FieldRaw(f) ensures Slot(Init(id, r, rt), f) == StringValue(r[k], rt) {
      var i :| 0 <= i < |ks| && ks[i] == k;
      forall j | i < j < |ks| ensures ks[j].fieldName != FieldRaw(f) {
        assert ks[j] != ks[i];
      }
      InitFromLastWins(Blank(id), ks, r, rt, f, i);
    }
    if forall k :: k in r ==> k.fieldName != FieldRaw(f) {
      InitFromUntouched(Blank(id), ks, r, rt, f);
    }
  }

  /** The initializer reads the tag text and the category through `stringValue`,
      matching entries by name only; a field without an entry keeps `""`. */
  lemma InitReads(id: string, r: Record, rt: Runtime)
    requires ValidRuntime(rt)
    requires UniqueNames(r)
    ensures var t := Init(id, r, rt);
      && t.id == id
      && (forall k :: k in r && k.fieldName == "tag" ==> t.value == StringValue(r[k], rt))
      && (forall k :: k in r && k.fieldName == "category" ==> t.rawCategory == StringValue(r[k], rt))
      && ((forall k :: k in r ==> k.fieldName != "tag") ==> t.value == "")
      && ((forall k :: k in r ==> k.fieldName != "category") ==> t.rawCategory == "")
  {
    InitSlot(id, r, rt, TagName);
    InitSlot(id, r, rt, CategoryName);
  }

  // ------------------------------------------------------- value(forKey:)

  /** `value(forKey:)`: an answer exactly for the two schema keys, compared by name
      and kind; both answers are text. */
  function ValueFor(t: Tag, k: FieldKey): (r: Option<Value>)
    ensures r.Some? <==> k in FieldKeys()
    ensures r.Some? ==> Plain(k, r.value)
  {
    if k == FieldKey("tag", SingleLineText) then Some(VString(t.value))
    else if k == FieldKey("category", SingleSelect) then Some(VString(t.rawCategory))
    else None
  }

  /** The object's answers, as `populateAllFields` asks for them. */
  function Answers(t: Tag): FieldKey -> Option<Value> {
    k => ValueFor(t, k)
  }

  // ----------------------------------------------------------- round trips

  /** Initializing from a record with text values, then asking for each schema key,
      gives back the record's values. */
  lemma InitThenValueFor(id: string, r: Record, rt: Runtime)
    requires ValidRuntime(rt)
    requires UniqueNames(r)
    requires forall k :: k in FieldKeys() && k in r ==> Plain(k, r[k])
    ensures forall k :: k in FieldKeys() && k in r ==> ValueFor(Init(id, r, rt), k) == Some(r[k])
  {
    InitReads(id, r, rt);
  }

  /** Populating the schema keys from a tag and initializing from the result
      rebuilds the same tag. */
  lemma ValueForThenInit(t: Tag, rt: Runtime)
    requires ValidRuntime(rt)
    ensures Init(t.id, PopulateAllFields(FieldKeys(), Answers(t)), rt) == t
  {
    var r := PopulateAllFields(FieldKeys(), Answers(t));
    PopulatedUniqueNames(FieldKeys(), Answers(t));
    InitReads(t.id, r, rt);
    assert Lookup(r, KeyOf(TagName)).Some? && Lookup(r, KeyOf(CategoryName)).Some?;
  }

  /** The whole wire round trip: the request body written for a tag, read back as a
      row's `fields` with the same schema, initializes the same tag. */
  lemma WireRoundTripTag(t: Tag, rt: Runtime)
    requires ValidRuntime(rt)
    ensures EncodeObject(Schema(), Answers(t), rt).Ok?
    ensures var w := EncodeObject(Schema(), Answers(t), rt).value.members["fields"].members;
      Init(t.id, DecodeRecord(Schema(), w, rt), rt) == t
  {
    assert PlainAnswers(Schema().fieldsKeys, Answers(t));
    WireRoundTrip(Schema(), Answers(t), rt);
    ValueForThenInit(t, rt);
  }
}
