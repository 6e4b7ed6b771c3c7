/** Decoding: from the JSON of a response to records and domain objects
    (`handleFetchResponse`, `extractObjects`, `extractObject`). */
module Decoder {
  import opened Common
  import opened Wire
  import opened Fields

  // ---------------------------------------------------------- attachments

  /** One wire attachment: an object with a string `filename` and a string `url`. */
  function AttachmentFrom(el: map<string, Json>): Option<AirtableAttachment> {
    if "filename" in el && el["filename"].JString? && "url" in el && el["url"].JString?
    then Some(NewAttachment(el["filename"].s, el["url"].s))
    else None
  }

  /** The well-formed wire attachments, in wire order. */
  function WellFormedAttachments(els: seq<map<string, Json>>): (r: seq<Value>)
    ensures forall i :: 0 <= i < |r| ==> r[i].VAttachment?
    ensures |r| <= |els|
  {
    if els == [] then []
    else
      (match AttachmentFrom(els[0])
       case Some(a) => [VAttachment(a)]
       case None => [])
      + WellFormedAttachments(els[1..])
  }

  /** `airtableObject[key] as? [AirtableAttachment] ?? []`. */
  function AttachmentsIn(prior: Option<Value>): seq<Value> {
    if prior.Some? && prior.value.VArray? && AllAttachments(prior.value.items)
    then prior.value.items
    else []
  }

  /** The `for value in …` loop: each well-formed element is appended to the
      attachments already stored under the key, and the key is rewritten. */
  function AccumulateAttachments(els: seq<map<string, Json>>, prior: Option<Value>): Option<Value>
    decreases |els|
  {
    if els == [] then prior
    else
      match AttachmentFrom(els[0])
      case None => AccumulateAttachments(els[1..], prior)
      case Some(a) =>
        AccumulateAttachments(els[1..], Some(VArray(AttachmentsIn(prior) + [VAttachment(a)])))
  }

  lemma {:induction false} AccumulateOnto(els: seq<map<string, Json>>, xs: seq<Value>)
    requires AllAttachments(xs)
    ensures AccumulateAttachments(els, Some(VArray(xs))) == Some(VArray(xs + WellFormedAttachments(els)))
    decreases |els|
  {
    if els == [] {
      assert xs + [] == xs;
    } else {
      match AttachmentFrom(els[0])
      case None =>
        AccumulateOnto(els[1..], xs);
        assert AccumulateAttachments(els, Some(VArray(xs))) == AccumulateAttachments(els[1..], Some(VArray(xs)));
        assert WellFormedAttachments(els) == WellFormedAttachments(els[1..]);
      case Some(a) =>
        AccumulateOnto(els[1..], xs + [VAttachment(a)]);
        assert xs + [VAttachment(a)] + WellFormedAttachments(els[1..])
            == xs + WellFormedAttachments(els);
    }
  }

  /** Starting from an absent key, the loop stores exactly the well-formed attachments,
      and stores nothing when there are none. */
  lemma {:induction false} AccumulateFromAbsent(els: seq<map<string, Json>>)
    ensures AccumulateAttachments(els, None) ==
      if WellFormedAttachments(els) == [] then None else Some(VArray(WellFormedAttachments(els)))
    decreases |els|
  {
    if els != [] {
      match AttachmentFrom(els[0])
      case None =>
        AccumulateFromAbsent(els[1..]);
        assert AccumulateAttachments(els, None) == AccumulateAttachments(els[1..], None);
        assert WellFormedAttachments(els) == WellFormedAttachments(els[1..]);
      case Some(a) =>
        AccumulateOnto(els[1..], [VAttachment(a)]);
        assert AttachmentsIn(None) == [];
        assert [] + [VAttachment(a)] == [VAttachment(a)];
        assert AccumulateAttachments(els, None)
            == AccumulateAttachments(els[1..], Some(VArray([] + [VAttachment(a)])));
        assert WellFormedAttachments(els) == [VAttachment(a)] + WellFormedAttachments(els[1..]);
        assert WellFormedAttachments(els) != [];
    }
  }

  /** When every wire element is a well-formed attachment, all of them are kept, in
      wire order. */
  lemma {:induction false} AllWellFormed(els: seq<map<string, Json>>, atts: seq<AirtableAttachment>)
    requires |els| == |atts|
    requires forall i :: 0 <= i < |els| ==> AttachmentFrom(els[i]) == Some(atts[i])
    ensures |WellFormedAttachments(els)| == |atts|
    ensures forall i :: 0 <= i < |atts| ==> WellFormedAttachments(els)[i] == VAttachment(atts[i])
    decreases |els|
  {
    if els != [] {
      var rest := els[1..];
      assert forall i :: 0 <= i < |rest| ==> rest[i] == els[i + 1];
      AllWellFormed(rest, atts[1..]);
      assert WellFormedAttachments(els) == [VAttachment(atts[0])] + WellFormedAttachments(rest);
    }
  }

  /** The elements `as? [[String: Any]] ?? []` yields: all of an array of objects,
      and nothing at all when any element is not an object. */
  function ListedObjects(w: Json): seq<map<string, Json>> {
    if w.JArray? && IsObjectArray(w.items) then Objects(w.items) else []
  }

  // --------------------------------------------------------------- fields

  function StringValues(items: seq<Json>): (r: seq<Value>)
    requires IsStringArray(items)
    ensures |r| == |items|
    ensures forall i :: 0 <= i < |r| ==> r[i] == VString(items[i].s)
  {
    seq(|items|, i requires 0 <= i < |items| => VString(items[i].s))
  }

  /** The texts a link field reads serialise back to the wire list they came from. */
  lemma StringValuesSerialise(items: seq<Json>)
    requires IsStringArray(items)
    ensures ToJson(VArray(StringValues(items))) == Some(JArray(items))
  {
    var xs := StringValues(items);
    assert forall i | 0 <= i < |xs| :: ToJson(xs[i]) == Some(items[i]);
    var ys := seq(|xs|, i requires 0 <= i < |xs| => ToJson(xs[i]).value);
    assert ys == items;
  }

  /** The `switch key.fieldType` of `extractObject` for a wire value `w` found under
      the key's name, given what the record held for the key before (`prior`).
      `None` means the key ends up absent. */
  function DecodeStep(kind: KeyType, w: Json, prior: Option<Value>, rt: Runtime): Option<Value> {
    match kind
    case SingleLineText | SingleSelect => if w.JString? then Some(VString(w.s)) else None
    case Number => if w.JInt? && InInt64Range(w.n) then Some(VInt(w.n)) else None
    case Checkbox => Some(VBool(w.JBool? && w.b))
    case LinkToAnotherRecord =>
      if w.JArray? && IsStringArray(w.items) then Some(VArray(StringValues(w.items))) else None
    case DateWithHour =>
      if !w.JString? then prior          // the closure returns early
      else (match rt.parseDate(w.s)
            case Some(t) => Some(VDate(t))
            case None => None)
    case Attachment => AccumulateAttachments(ListedObjects(w), prior)
  }

  /** The per-kind decoding rules for a key not yet in the record. */
  lemma DecodeRules(kind: KeyType, w: Json, rt: Runtime)
    ensures var r := DecodeStep(kind, w, None, rt);
      && (kind == SingleLineText || kind == SingleSelect ==>
            r == if w.JString? then Some(VString(w.s)) else None)
      && (kind == Number ==>
            r == if w.JInt? && InInt64Range(w.n) then Some(VInt(w.n)) else None)
      && (kind == Checkbox ==>
            r == Some(VBool(if w.JBool? then w.b else false)))
      && (kind == LinkToAnotherRecord ==>
            (r.Some? <==> w.JArray? && IsStringArray(w.items))
            && (r.Some? ==>
                  && r.value.VArray? && |r.value.items| == |w.items|
                  && forall i :: 0 <= i < |w.items| ==> w.items[i] == JString(r.value.items[i].s)))
      && (kind == DateWithHour ==>
            r == if w.JString? && rt.parseDate(w.s).Some? then Some(VDate(rt.parseDate(w.s).value)) else None)
      && (kind == Attachment ==>
            r == if WellFormedAttachments(ListedObjects(w)) == [] then None
                 else Some(VArray(WellFormedAttachments(ListedObjects(w)))))
  {
    AccumulateFromAbsent(ListedObjects(w));
  }

  /** One iteration of `tableSchema.fieldsKeys.forEach`: a key whose name is missing
      from `fields` leaves the record unchanged. */
  function ApplyKey(k: FieldKey, fields: map<string, Json>, acc: Record, rt: Runtime): Record {
    if k.fieldName in fields
    then Put(acc, k, DecodeStep(k.fieldType, fields[k.fieldName], Lookup(acc, k), rt))
    else acc
  }

  /** The whole `forEach` over the schema keys, in order. */
  function ExtractFields(keys: seq<FieldKey>, fields: map<string, Json>, acc: Record, rt: Runtime): Record
    decreases |keys|
  {
    if keys == [] then acc else ExtractFields(keys[1..], fields, ApplyKey(keys[0], fields, acc, rt), rt)
  }

  lemma {:induction false} ExtractFieldsAt(keys: seq<FieldKey>, fields: map<string, Json>, acc: Record, rt: Runtime, k: FieldKey)
    requires Distinct(keys)
    ensures Lookup(ExtractFields(keys, fields, acc, rt), k) ==
      if k in keys && k.fieldName in fields
      then DecodeStep(k.fieldType, fields[k.fieldName], Lookup(acc, k), rt)
      else Lookup(acc, k)
    decreases |keys|
  {
    if keys != [] {
      var acc' := ApplyKey(keys[0], fields, acc, rt);
      assert Distinct(keys[1..]);
      ExtractFieldsAt(keys[1..], fields, acc', rt, k);
      if k == keys[0] {
        assert k !in keys[1..];
      } else {
        assert Lookup(acc', k) == Lookup(acc, k);
        assert k in keys <==> k in keys[1..];
      }
    }
  }

  /** The record `extractObject` builds from the `fields` of one row. */
  function DecodeRecord(schema: TableSchema, fields: map<string, Json>, rt: Runtime): Record {
    ExtractFields(schema.fieldsKeys, fields, map[], rt)
  }

  /** For a schema without repeated keys, the decoded record holds, for each key,
      exactly what that key's rule makes of the wire value under its name; keys
      outside the schema, and keys whose name is missing from the row, are absent
      (no default is inserted). */
  lemma DecodeRecordAt(schema: TableSchema, fields: map<string, Json>, rt: Runtime, k: FieldKey)
    requires Distinct(schema.fieldsKeys)
    ensures k !in schema.fieldsKeys || k.fieldName !in fields ==> k !in DecodeRecord(schema, fields, rt)
    ensures k in schema.fieldsKeys && k.fieldName in fields ==>
      Lookup(DecodeRecord(schema, fields, rt), k) == DecodeStep(k.fieldType, fields[k.fieldName], None, rt)
  {
    ExtractFieldsAt(schema.fieldsKeys, fields, map[], rt, k);
  }

  /** A checkbox key is present in the decoded record exactly when its name is on the
      wire, so a non-boolean wire value (stored as `false`) and a missing one (absent)
      stay distinguishable; a text key is present only for a string wire value. */
  lemma CheckboxAndTextPresence(schema: TableSchema, fields: map<string, Json>, rt: Runtime, k: FieldKey)
    requires Distinct(schema.fieldsKeys)
    requires k in schema.fieldsKeys
    ensures k.fieldType == Checkbox ==>
      (k in DecodeRecord(schema, fields, rt) <==> k.fieldName in fields)
      && (k.fieldName in fields && !fields[k.fieldName].JBool? ==> DecodeRecord(schema, fields, rt)[k] == VBool(false))
    ensures k.fieldType == SingleLineText || k.fieldType == SingleSelect ==>
      (k in DecodeRecord(schema, fields, rt) <==> k.fieldName in fields && fields[k.fieldName].JString?)
  {
    DecodeRecordAt(schema, fields, rt, k);
  }

  // ----------------------------------------------------------------- rows

  /** `extractObject`: the domain type's initializer applied to the row id and the
      decoded record. */
  function ExtractObject<T>(fields: map<string, Json>, id: string, schema: TableSchema, rt: Runtime,
                            make: (string, Record) -> T): T
  {
    make(id, DecodeRecord(schema, fields, rt))
  }

  /** The `guard` of `extractObjects`: a row needs an object `fields` and a string `id`. */
  function RowOf(rec: map<string, Json>): Option<(string, map<string, Json>)> {
    if "fields" in rec && rec["fields"].JObject? && "id" in rec && rec["id"].JString?
    then Some((rec["id"].s, rec["fields"].members))
    else None
  }

  /** The objects one row contributes: one for a well-formed row, none otherwise. */
  function RowObjects<T>(rec: map<string, Json>, schema: TableSchema, rt: Runtime,
                         make: (string, Record) -> T): (r: seq<T>)
    ensures |r| == if RowOf(rec).Some? then 1 else 0
  {
    match RowOf(rec)
    case Some((id, fields)) => [ExtractObject(fields, id, schema, rt, make)]
    case None => []
  }

  /** `extractObjects`: `compactMap` over the rows. */
  function ExtractObjects<T>(records: seq<map<string, Json>>, schema: TableSchema, rt: Runtime,
                             make: (string, Record) -> T): (r: seq<T>)
    ensures |r| <= |records|
    ensures (forall i :: 0 <= i < |records| ==> RowOf(records[i]).Some?) ==> |r| == |records|
    decreases |records|
  {
    if records == [] then []
    else RowObjects(records[0], schema, rt, make) + ExtractObjects(records[1..], schema, rt, make)
  }

  /** Rows decode independently and keep their order. */
  lemma {:induction false} ExtractObjectsAppend<T>(a: seq<map<string, Json>>, b: seq<map<string, Json>>,
                                                   schema: TableSchema, rt: Runtime, make: (string, Record) -> T)
    ensures ExtractObjects(a + b, schema, rt, make) ==
      ExtractObjects(a, schema, rt, make) + ExtractObjects(b, schema, rt, make)
    decreases |a|
  {
    if a == [] {
      assert a + b == b;
    } else {
      assert (a + b)[0] == a[0];
      assert (a + b)[1..] == a[1..] + b;
      ExtractObjectsAppend(a[1..], b, schema, rt, make);
      var head := RowObjects(a[0], schema, rt, make);
      var tailA := ExtractObjects(a[1..], schema, rt, make);
      var tailB := ExtractObjects(b, schema, rt, make);
      assert head + (tailA + tailB) == (head + tailA) + tailB;
    }
  }

  /** A single row yields one object when it has a string id and object fields, and
      is dropped silently otherwise. */
  lemma ExtractObjectsSingle<T>(rec: map<string, Json>, schema: TableSchema, rt: Runtime, make: (string, Record) -> T)
    ensures ExtractObjects([rec], schema, rt, make) ==
      if "id" in rec && rec["id"].JString? && "fields" in rec && rec["fields"].JObject?
      then [make(rec["id"].s, DecodeRecord(schema, rec["fields"].members, rt))]
      else []
  {
  }

  // ------------------------------------------------------------ responses

  /** What a fetch completion receives. */
  datatype FetchResult<T> = FetchResult(objects: seq<T>, error: Option<AirtableError>)

  /** The three outcomes of `handleFetchResponse`: the parser throws (on text that is
      not JSON, or on a top-level scalar), the document is not an object, or its rows
      are decoded. */
  function HandleFetchResponse<T>(payload: Payload, schema: TableSchema, rt: Runtime,
                                  make: (string, Record) -> T): (r: FetchResult<T>)
    ensures r.error.Some? ==> r.objects == []
    ensures r.error.None? <==> payload.Parsed? && payload.json.JObject?
    ensures r.error == Some(MalformedJson) <==> TopLevel(payload).Unparsable?
    ensures r.error == Some(InvalidFormat) <==> payload.Parsed? && payload.json.JArray?
  {
    match TopLevel(payload)
    case Unparsable => FetchResult([], Some(MalformedJson))
    case Parsed(j) =>
      if !j.JObject? then FetchResult([], Some(InvalidFormat))
      else
        var top := j.members;
        if "records" in top && top["records"].JArray? && IsObjectArray(top["records"].items)
        then FetchResult(ExtractObjects(Objects(top["records"].items), schema, rt, make), None)
        else FetchResult(ExtractObjects([top], schema, rt, make), None)
  }

  /** A `records` array of objects is decoded element by element; any other object
      (including one whose `records` is not an array of objects) is decoded as a
      one-element list. */
  lemma FetchShapes<T>(top: map<string, Json>, schema: TableSchema, rt: Runtime, make: (string, Record) -> T)
    ensures var r := HandleFetchResponse(Parsed(JObject(top)), schema, rt, make);
      if "records" in top && top["records"].JArray? && IsObjectArray(top["records"].items)
      then r.objects == ExtractObjects(Objects(top["records"].items), schema, rt, make)
      else r.objects == ExtractObjects([top], schema, rt, make)
  {
  }

  /** The list endpoint's `{"records": [row]}` and the single-record endpoint's bare
      `row` decode to the same objects. */
  lemma {:induction false} ListAndSingleAgree<T>(row: map<string, Json>, schema: TableSchema, rt: Runtime,
                                                 make: (string, Record) -> T)
    requires "records" !in row
    ensures HandleFetchResponse(Parsed(JObject(map["records" := JArray([JObject(row)])])), schema, rt, make)
         == HandleFetchResponse(Parsed(JObject(row)), schema, rt, make)
  {
    var items := [JObject(row)];
    assert IsObjectArray(items);
    assert Objects(items) == [row];
  }
}
