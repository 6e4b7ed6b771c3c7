/** The two halves of the codec together: a record built by `populateAllFields`
    whose values all have the JSON shape their key's kind reads back survives being
    written as a request body and read again as a response row. */
module Codec {
  import opened Common
  import opened Wire
  import opened Fields
  import opened Decoder
  import opened Encoder

  /** An attachment list as decoding produces it: non-empty, and every attachment
      clean (decoding never raises the dirty flag, and an empty list reads back as
      no entry at all). */
  predicate CleanAttachments(xs: seq<Value>) {
    && |xs| > 0
    && forall i :: 0 <= i < |xs| ==> xs[i].VAttachment? && !xs[i].a.updatedUrl
  }

  /** `v` is what a key of `k`'s kind writes and reads back unchanged: text for text
      and single-select keys, an integer for numbers, a boolean for checkboxes, a list
      of texts for links, a clean non-empty attachment list for attachments. Dates
      are not plain: they go through the formatter and lose their sub-second part. */
  predicate Plain(k: FieldKey, v: Value) {
    match k.fieldType
    case SingleLineText | SingleSelect => v.VString?
    case Number => v.VInt?
    case Checkbox => v.VBool?
    case LinkToAnotherRecord => v.VArray? && forall i :: 0 <= i < |v.items| ==> v.items[i].VString?
    case Attachment => v.VArray? && CleanAttachments(v.items)
    case DateWithHour => false
  }

  /** Every value the object gives for a schema key is plain. */
  predicate PlainAnswers(keys: seq<FieldKey>, valueFor: FieldKey -> Option<Value>) {
    forall k :: k in keys && valueFor(k).Some? ==> Plain(k, valueFor(k).value)
  }

  /** A plain value never traps and is always sent; every kind but attachments sends
      it unchanged. */
  lemma PlainEmits(k: FieldKey, v: Value, rt: Runtime)
    requires Plain(k, v)
    ensures EmitField(k, v, rt).Ok? && Emitted(k, v, rt).Some?
    ensures k.fieldType != Attachment ==> Emitted(k, v, rt) == Some(v)
  {
  }

  /** One attachment's `{filename, url}` dictionary serialises, and the attachment
      decoding rule reads it back as a clean attachment with the same name and url. */
  lemma AttachmentJsonReadsBack(a: AirtableAttachment)
    ensures ToJson(AttachmentJson(a)).Some?
    ensures ToJson(AttachmentJson(a)).value.JObject?
    ensures AttachmentFrom(ToJson(AttachmentJson(a)).value.members) == Some(a.(updatedUrl := false))
  {
    var m := map["filename" := VString(a.fileName), "url" := VString(a.url)];
    DictToJson(m);
  }

  /** A clean non-empty attachment list is sent as a list of `{filename, url}`
      objects that serialises and that the attachment rule reads back as the same
      list. */
  lemma AttachmentsReadBack(xs: seq<Value>, rt: Runtime)
    requires CleanAttachments(xs)
    ensures ToJson(VArray(AttachmentsJson(AttachmentsOf(VArray(xs))))).Some?
    ensures DecodeStep(Attachment, ToJson(VArray(AttachmentsJson(AttachmentsOf(VArray(xs))))).value, None, rt)
         == Some(VArray(xs))
  {
    var atts := AttachmentsOf(VArray(xs));
    assert forall i | 0 <= i < |atts| :: atts[i] == xs[i].a;
    var js := AttachmentsJson(atts);
    forall i | 0 <= i < |js| ensures ToJson(js[i]).Some? && ToJson(js[i]).value.JObject? {
      AttachmentJsonReadsBack(atts[i]);
    }
    var items := seq(|js|, i requires 0 <= i < |js| => ToJson(js[i]).value);
    assert ToJson(VArray(js)) == Some(JArray(items));
    assert IsObjectArray(items);
    var els := Objects(items);
    assert ListedObjects(JArray(items)) == els;
    forall i | 0 <= i < |els| ensures AttachmentFrom(els[i]) == Some(xs[i].a) {
      AttachmentJsonReadsBack(atts[i]);
      assert xs[i].a.(updatedUrl := false) == xs[i].a;
    }
    var clean := seq(|xs|, i requires 0 <= i < |xs| => xs[i].a);
    AllWellFormed(els, clean);
    var wf := WellFormedAttachments(els);
    assert wf == xs;
    AccumulateFromAbsent(els);
  }

  /** What a plain value sends serialises, and its key's decoding rule turns the JSON
      back into the value. */
  lemma PlainReadsBack(k: FieldKey, v: Value, rt: Runtime)
    requires Plain(k, v)
    ensures Emitted(k, v, rt).Some? && ToJson(Emitted(k, v, rt).value).Some?
    ensures DecodeStep(k.fieldType, ToJson(Emitted(k, v, rt).value).value, None, rt) == Some(v)
  {
    PlainEmits(k, v, rt);
    if k.fieldType == LinkToAnotherRecord {
      var xs := v.items;
      assert forall i | 0 <= i < |xs| :: ToJson(xs[i]) == Some(JString(xs[i].s));
      var w := ToJson(v).value;
      assert IsStringArray(w.items);
      assert StringValues(w.items) == xs;
    } else if k.fieldType == Attachment {
      AttachmentsReadBack(v.items, rt);
    }
  }

  lemma DistinctNamesAreDistinct(keys: seq<FieldKey>)
    requires DistinctNames(keys)
    ensures Distinct(keys)
  {
    forall i, j | 0 <= i < j < |keys| ensures keys[i] != keys[j] {
      assert keys[i].fieldName != keys[j].fieldName;
    }
  }

  /** Two records that agree at every key are equal. */
  lemma RecordsAgree(r1: Record, r2: Record)
    requires forall k :: Lookup(r1, k) == Lookup(r2, k)
    ensures r1 == r2
  {
    forall k ensures k in r1 <==> k in r2 {
      assert Lookup(r1, k).Some? == Lookup(r2, k).Some?;
    }
    forall k | k in r1 ensures r1[k] == r2[k] {
      assert Lookup(r1, k) == Lookup(r2, k);
    }
  }

  /** For plain answers no entry traps, and the merged `fields` dictionary holds
      exactly the values the object gives, under their keys' names. */
  lemma SentPlainFields(schema: TableSchema, valueFor: FieldKey -> Option<Value>, rt: Runtime)
    requires ValidRuntime(rt)
    requires DistinctNames(schema.fieldsKeys)
    requires PlainAnswers(schema.fieldsKeys, valueFor)
    ensures var r := PopulateAllFields(schema.fieldsKeys, valueFor); JsonOf(r, rt.keyOrder(r), rt).Ok?
    ensures var r := PopulateAllFields(schema.fieldsKeys, valueFor);
      var fv := JsonOf(r, rt.keyOrder(r), rt).value["fields"].entries;
      && (forall k :: k in schema.fieldsKeys ==>
            && (k.fieldName in fv <==> valueFor(k).Some?)
            && (valueFor(k).Some? ==> Emitted(k, valueFor(k).value, rt).Some?
                                      && fv[k.fieldName] == Emitted(k, valueFor(k).value, rt).value))
      && (forall n :: n in fv ==> exists k :: k in schema.fieldsKeys && k.fieldName == n && valueFor(k).Some?)
  {
    var keys := schema.fieldsKeys;
    var r := PopulateAllFields(keys, valueFor);
    var ks := rt.keyOrder(r);
    PopulatedUniqueNames(keys, valueFor);
    assert IsEnumeration(ks, r);
    forall i | 0 <= i < |ks| && ks[i] in r ensures EmitField(ks[i], r[ks[i]], rt).Ok? {
      assert Lookup(r, ks[i]).Some?;
      PlainEmits(ks[i], r[ks[i]], rt);
    }
    assert FirstFailure(ks, r, rt).None?;
    forall k | k in keys && valueFor(k).Some? ensures Emitted(k, valueFor(k).value, rt).Some? {
      PlainEmits(k, valueFor(k).value, rt);
    }
    PopulatedBody(schema, valueFor, rt);
  }

  /** Serialising a dictionary of serialisable values keeps its names and serialises
      each value. */
  lemma DictToJson(m: map<string, Value>)
    requires forall n | n in m :: ToJson(m[n]).Some?
    ensures ToJson(VDict(m)).Some? && ToJson(VDict(m)).value.JObject?
    ensures ToJson(VDict(m)).value.members.Keys == m.Keys
    ensures forall n | n in m :: ToJson(VDict(m)).value.members[n] == ToJson(m[n]).value
  {
  }

  /** The `fields` object of the body for plain answers: exactly the names of the
      schema keys that have a value, each holding that value's JSON, inside a body
      with no other member. */
  lemma EncodedFields(schema: TableSchema, valueFor: FieldKey -> Option<Value>, rt: Runtime)
    requires ValidRuntime(rt)
    requires DistinctNames(schema.fieldsKeys)
    requires PlainAnswers(schema.fieldsKeys, valueFor)
    ensures EncodeObject(schema, valueFor, rt).Ok?
    ensures var body := EncodeObject(schema, valueFor, rt).value;
      var w := body.members["fields"].members;
      && body == JObject(map["fields" := JObject(w)])
      && (forall k :: k in schema.fieldsKeys ==>
            && (k.fieldName in w <==> valueFor(k).Some?)
            && (valueFor(k).Some? ==>
                  && Emitted(k, valueFor(k).value, rt).Some?
                  && ToJson(Emitted(k, valueFor(k).value, rt).value).Some?
                  && w[k.fieldName] == ToJson(Emitted(k, valueFor(k).value, rt).value).value))
      && (forall n :: n in w ==> exists k :: k in schema.fieldsKeys && k.fieldName == n && valueFor(k).Some?)
  {
    var keys := schema.fieldsKeys;
    var r := PopulateAllFields(keys, valueFor);
    var ks := rt.keyOrder(r);
    SentPlainFields(schema, valueFor, rt);
    var fv := JsonOf(r, ks, rt).value["fields"].entries;
    forall n | n in fv ensures ToJson(fv[n]).Some? {
      var k :| k in keys && k.fieldName == n && valueFor(k).Some?;
      PlainReadsBack(k, valueFor(k).value, rt);
    }
    DictToJson(fv);
    var top := JsonOf(r, ks, rt).value;
    assert top == map["fields" := VDict(fv)];
    DictToJson(top);
    var body := ToJson(VDict(top)).value;
    assert EncodeObject(schema, valueFor, rt) == Ok(body);
    var w := body.members["fields"].members;
    assert body.members == map["fields" := JObject(w)];
    forall k | k in keys && valueFor(k).Some?
      ensures Emitted(k, valueFor(k).value, rt).Some? && ToJson(Emitted(k, valueFor(k).value, rt).value).Some?
    {
      PlainReadsBack(k, valueFor(k).value, rt);
    }
  }

  /** Writing a populated record of plain values and reading the body's `fields`
      back with the same schema gives the populated record again. */
  lemma WireRoundTrip(schema: TableSchema, valueFor: FieldKey -> Option<Value>, rt: Runtime)
    requires ValidRuntime(rt)
    requires DistinctNames(schema.fieldsKeys)
    requires PlainAnswers(schema.fieldsKeys, valueFor)
    ensures EncodeObject(schema, valueFor, rt).Ok?
    ensures var w := EncodeObject(schema, valueFor, rt).value.members["fields"].members;
      DecodeRecord(schema, w, rt) == PopulateAllFields(schema.fieldsKeys, valueFor)
  {
    var keys := schema.fieldsKeys;
    EncodedFields(schema, valueFor, rt);
    var w := EncodeObject(schema, valueFor, rt).value.members["fields"].members;
    var r := PopulateAllFields(keys, valueFor);
    var d := DecodeRecord(schema, w, rt);
    DistinctNamesAreDistinct(keys);
    forall k ensures Lookup(d, k) == Lookup(r, k) {
      DecodeRecordAt(schema, w, rt, k);
      PopulateAllFieldsAt(keys, valueFor, k);
      if k in keys && valueFor(k).Some? {
        PlainReadsBack(k, valueFor(k).value, rt);
      }
    }
    RecordsAgree(d, r);
  }
}
