/** Encoding: from a domain object to the `{"fields": …}` body of a write request
    (`populateAllFields`, `json(of:for:)`, `data(of:for:)`). */
module Encoder {
  import opened Common
  import opened Wire
  import opened Fields

  // ------------------------------------------------------------- populate

  /** The `reduce` of `populateAllFields`, continuing from `acc`. */
  function PopulateFrom(keys: seq<FieldKey>, valueFor: FieldKey -> Option<Value>, acc: Record): Record
    decreases |keys|
  {
    if keys == [] then acc else PopulateFrom(keys[1..], valueFor, Put(acc, keys[0], valueFor(keys[0])))
  }

  /** `populateAllFields`: asks the object for its value at every schema key. */
  function PopulateAllFields(keys: seq<FieldKey>, valueFor: FieldKey -> Option<Value>): Record {
    PopulateFrom(keys, valueFor, map[])
  }

  lemma {:induction false} PopulateFromAt(keys: seq<FieldKey>, valueFor: FieldKey -> Option<Value>, acc: Record, k: FieldKey)
    ensures Lookup(PopulateFrom(keys, valueFor, acc), k) == if k in keys then valueFor(k) else Lookup(acc, k)
    decreases |keys|
  {
    if keys != [] {
      PopulateFromAt(keys[1..], valueFor, Put(acc, keys[0], valueFor(keys[0])), k);
      assert k in keys <==> k == keys[0] || k in keys[1..];
    }
  }

  /** The populated record holds the object's value at exactly the schema keys it has
      one for: keys answered with `nil`, and keys outside the schema, are absent. */
  lemma PopulateAllFieldsAt(keys: seq<FieldKey>, valueFor: FieldKey -> Option<Value>, k: FieldKey)
    ensures Lookup(PopulateAllFields(keys, valueFor), k) == if k in keys then valueFor(k) else None
  {
    PopulateFromAt(keys, valueFor, map[], k);
  }

  // ---------------------------------------------------------------- dates

  /** The longest prefix of `s` without a `.`. */
  function UpToDot(s: string): (r: string)
    ensures r <= s
    ensures '.' !in r
    ensures |r| == |s| || s[|r|] == '.'
    decreases |s|
  {
    if s == [] || s[0] == '.' then [] else [s[0]] + UpToDot(s[1..])
  }

  /** `s.split(separator: ".").first`: empty pieces are skipped, so leading dots are
      passed over, and a string of dots has no first piece. */
  function FirstPiece(s: string): (r: Option<string>)
    ensures r.None? <==> forall i :: 0 <= i < |s| ==> s[i] == '.'
    ensures r.Some? ==> r.value != [] && '.' !in r.value
    decreases |s|
  {
    if s == [] then None
    else if s[0] == '.' then FirstPiece(s[1..])
    else Some(UpToDot(s))
  }

  /** The piece `FirstPiece` finds is the one that starts at the first character that
      is not a dot and runs up to the next dot. */
  lemma {:induction false} FirstPieceIsFirst(s: string, j: nat)
    requires j < |s| && s[j] != '.'
    requires forall i :: 0 <= i < j ==> s[i] == '.'
    ensures FirstPiece(s) == Some(UpToDot(s[j..]))
    decreases j
  {
    if j > 0 {
      var t := s[1..];
      assert forall i :: 0 <= i < j - 1 ==> t[i] == s[i + 1];
      FirstPieceIsFirst(t, j - 1);
      assert t[j - 1..] == s[j..];
    }
  }

  // ---------------------------------------------------------- attachments

  /** The attachments sent for a value: the value itself if it is one attachment, the
      elements of an array of attachments, and none otherwise. */
  function AttachmentsOf(v: Value): seq<AirtableAttachment> {
    if v.VAttachment? then [v.a]
    else if v.VArray? && AllAttachments(v.items) then seq(|v.items|, i requires 0 <= i < |v.items| => v.items[i].a)
    else []
  }

  /** `["filename": fileName, "url": url]`. */
  function AttachmentJson(a: AirtableAttachment): Value {
    VDict(map["filename" := VString(a.fileName), "url" := VString(a.url)])
  }

  function AttachmentsJson(atts: seq<AirtableAttachment>): (r: seq<Value>)
    ensures |r| == |atts|
    ensures forall i :: 0 <= i < |atts| ==> r[i] == AttachmentJson(atts[i])
  {
    seq(|atts|, i requires 0 <= i < |atts| => AttachmentJson(atts[i]))
  }

  // --------------------------------------------------------------- fields

  /** One element of `json(of:for:)`'s `map`: what is sent for value `v` under key `k`
      (`None` when nothing is), or the trap of `first!` on a date text without digits. */
  function EmitField(k: FieldKey, v: Value, rt: Runtime): (r: Result<Option<Value>, EncodeFailure>)
    ensures r.Err? ==> r.error == DateWithoutDigits
  {
    match k.fieldType
    case SingleLineText | SingleSelect => Ok(Some(VString(StringValue(v, rt))))
    case Number => Ok(Some(VInt(IntValue(v))))
    case Checkbox => Ok(Some(VBool(BoolValue(v))))
    case LinkToAnotherRecord => Ok(Some(VArray(ArrayValue(v))))
    case DateWithHour =>
      if DateValue(v) == Epoch then Ok(None)
      else
        (match FirstPiece(rt.formatDate(DateValue(v)))
         case Some(p) => Ok(Some(VString(p + ".000Z")))
         case None => Err(DateWithoutDigits))
    case Attachment => Ok(Some(VArray(AttachmentsJson(AttachmentsOf(v)))))
  }

  /** What `EmitField` sends, if it sends anything. */
  function Emitted(k: FieldKey, v: Value, rt: Runtime): Option<Value> {
    match EmitField(k, v, rt)
    case Ok(o) => o
    case Err(_) => None
  }

  /** A date key is left out exactly when the value's date projection is the epoch,
      which includes every value that is not a date; otherwise it is sent as the first
      dot-free piece of the formatted text followed by `.000Z`, and `first!` traps when
      the text is all dots. Every other kind always sends something. */
  lemma DateEmission(k: FieldKey, v: Value, rt: Runtime)
    ensures k.fieldType == DateWithHour ==> (EmitField(k, v, rt) == Ok(None) <==> DateValue(v) == Epoch)
    ensures k.fieldType == DateWithHour && !v.VDate? ==> EmitField(k, v, rt) == Ok(None)
    ensures k.fieldType == DateWithHour && DateValue(v) != Epoch ==>
      var s := rt.formatDate(DateValue(v));
      && (FirstPiece(s).Some? ==> EmitField(k, v, rt) == Ok(Some(VString(FirstPiece(s).value + ".000Z"))))
      && (FirstPiece(s).None? <==> EmitField(k, v, rt).Err?)
    ensures k.fieldType != DateWithHour ==> EmitField(k, v, rt).Ok? && EmitField(k, v, rt).value.Some?
  {
  }

  /** One attachment and a one-element list of it are sent identically, as a list of
      one `{filename, url}` object. */
  lemma SingleAttachmentAsList(k: FieldKey, a: AirtableAttachment, rt: Runtime)
    requires k.fieldType == Attachment
    ensures EmitField(k, VAttachment(a), rt) == EmitField(k, VArray([VAttachment(a)]), rt)
    ensures EmitField(k, VAttachment(a), rt) ==
      Ok(Some(VArray([VDict(map["filename" := VString(a.fileName), "url" := VString(a.url)])])))
  {
    assert AttachmentsOf(VArray([VAttachment(a)])) == [a];
    assert AttachmentsJson([a]) == [AttachmentJson(a)];
  }

  // ---------------------------------------------------------------- merge

  /** What each key of record `r` sends; keys outside `r` send nothing. */
  function SenderOf(r: Record, rt: Runtime): FieldKey -> Option<Value> {
    k => if k in r then Emitted(k, r[k], rt) else None
  }

  /** Merging one single-entry dictionary into `acc`, keeping the current value. */
  function MergeStep(k: FieldKey, sent: FieldKey -> Option<Value>, acc: map<string, Value>): map<string, Value> {
    if sent(k).Some? && k.fieldName !in acc then acc[k.fieldName := sent(k).value] else acc
  }

  /** `json(of:for:)`'s `map` followed by its `reduce` with
      `merging(_:uniquingKeysWith: { current, _ in current })`, over the keys in
      dictionary order `ks`. */
  function MergeFields(ks: seq<FieldKey>, sent: FieldKey -> Option<Value>, acc: map<string, Value>): map<string, Value>
    decreases |ks|
  {
    if ks == [] then acc else MergeFields(ks[1..], sent, MergeStep(ks[0], sent, acc))
  }

  /** The first entry, in dictionary order, whose emission traps. */
  function FirstFailure(ks: seq<FieldKey>, r: Record, rt: Runtime): (f: Option<EncodeFailure>)
    ensures f.None? <==> forall i :: 0 <= i < |ks| && ks[i] in r ==> EmitField(ks[i], r[ks[i]], rt).Ok?
    ensures f.Some? ==> f.value == DateWithoutDigits
    decreases |ks|
  {
    if ks == [] then None
    else if ks[0] in r && EmitField(ks[0], r[ks[0]], rt).Err? then Some(EmitField(ks[0], r[ks[0]], rt).error)
    else FirstFailure(ks[1..], r, rt)
  }

  /** `json(of:for:)`: `["fields": …]`, visiting the record in dictionary order `ks`. */
  function JsonOf(r: Record, ks: seq<FieldKey>, rt: Runtime): (j: Result<map<string, Value>, EncodeFailure>)
    ensures j.Ok? ==> j.value.Keys == {"fields"} && j.value["fields"].VDict?
  {
    match FirstFailure(ks, r, rt)
    case Some(f) => Err(f)
    case None => Ok(map["fields" := VDict(MergeFields(ks, SenderOf(r, rt), map[]))])
  }

  /** `data(of:for:)`: serialisation of `json(of:for:)`; the body is always an object
      whose only member is the object `fields`. */
  function DataOf(r: Record, ks: seq<FieldKey>, rt: Runtime): (d: Result<Json, EncodeFailure>)
    ensures d.Ok? ==> d.value.JObject? && d.value.members.Keys == {"fields"} && d.value.members["fields"].JObject?
  {
    match JsonOf(r, ks, rt)
    case Err(f) => Err(f)
    case Ok(top) =>
      match ToJson(VDict(top))
      case Some(j) => Ok(j)
      case None => Err(NotSerializable)
  }

  /** The request body for an object: populate the record, then serialise it in the
      runtime's dictionary order. */
  function EncodeObject(schema: TableSchema, valueFor: FieldKey -> Option<Value>, rt: Runtime): Result<Json, EncodeFailure> {
    var r := PopulateAllFields(schema.fieldsKeys, valueFor);
    DataOf(r, rt.keyOrder(r), rt)
  }

  // -------------------------------------------------------- merge lemmas

  lemma {:induction false} MergeFieldsKeepsAcc(ks: seq<FieldKey>, sent: FieldKey -> Option<Value>, acc: map<string, Value>, n: string)
    requires n in acc
    ensures n in MergeFields(ks, sent, acc) && MergeFields(ks, sent, acc)[n] == acc[n]
    decreases |ks|
  {
    if ks != [] {
      MergeFieldsKeepsAcc(ks[1..], sent, MergeStep(ks[0], sent, acc), n);
    }
  }

  lemma {:induction false} MergeFieldsKeys(ks: seq<FieldKey>, sent: FieldKey -> Option<Value>, acc: map<string, Value>, n: string)
    ensures n in MergeFields(ks, sent, acc) <==>
      n in acc || exists i :: 0 <= i < |ks| && ks[i].fieldName == n && sent(ks[i]).Some?
    decreases |ks|
  {
    if ks != [] {
      var tail := ks[1..];
      MergeFieldsKeys(tail, sent, MergeStep(ks[0], sent, acc), n);
      if exists i :: 0 <= i < |ks| && ks[i].fieldName == n && sent(ks[i]).Some? {
        var i :| 0 <= i < |ks| && ks[i].fieldName == n && sent(ks[i]).Some?;
        if i > 0 {
          assert tail[i - 1] == ks[i];
        }
      }
      if exists i :: 0 <= i < |tail| && tail[i].fieldName == n && sent(tail[i]).Some? {
        var i :| 0 <= i < |tail| && tail[i].fieldName == n && sent(tail[i]).Some?;
        assert ks[i + 1] == tail[i];
      }
    }
  }

  /** The `i`-th key is the first key of its name that sends something. */
  predicate FirstSenderOfName(ks: seq<FieldKey>, sent: FieldKey -> Option<Value>, i: nat)
    requires i < |ks|
  {
    && sent(ks[i]).Some?
    && forall j :: 0 <= j < i && sent(ks[j]).Some? ==> ks[j].fieldName != ks[i].fieldName
  }

  lemma {:induction false} MergeFieldsFirst(ks: seq<FieldKey>, sent: FieldKey -> Option<Value>, acc: map<string, Value>, i: nat)
    requires i < |ks| && FirstSenderOfName(ks, sent, i) && ks[i].fieldName !in acc
    ensures ks[i].fieldName in MergeFields(ks, sent, acc)
    ensures MergeFields(ks, sent, acc)[ks[i].fieldName] == sent(ks[i]).value
    decreases |ks|
  {
    var acc' := MergeStep(ks[0], sent, acc);
    if i == 0 {
      MergeFieldsKeepsAcc(ks[1..], sent, acc', ks[0].fieldName);
    } else {
      var tail := ks[1..];
      assert tail[i - 1] == ks[i];
      forall j | 0 <= j < i - 1 && sent(tail[j]).Some?
        ensures tail[j].fieldName != tail[i - 1].fieldName
      {
        assert tail[j] == ks[j + 1];
      }
      MergeFieldsFirst(tail, sent, acc', i - 1);
    }
  }

  /** First wins: the merged fields name exactly the keys that send something, and
      each name holds what the first such key of that name (in visiting order) sent;
      later keys of the same name are discarded. */
  lemma MergeFirstWins(ks: seq<FieldKey>, sent: FieldKey -> Option<Value>)
    ensures var m := MergeFields(ks, sent, map[]);
      && (forall n :: n in m <==> exists i :: 0 <= i < |ks| && ks[i].fieldName == n && sent(ks[i]).Some?)
      && (forall i :: 0 <= i < |ks| && FirstSenderOfName(ks, sent, i) ==> m[ks[i].fieldName] == sent(ks[i]).value)
  {
    forall n ensures n in MergeFields(ks, sent, map[]) <==>
      exists i :: 0 <= i < |ks| && ks[i].fieldName == n && sent(ks[i]).Some?
    {
      MergeFieldsKeys(ks, sent, map[], n);
    }
    forall i | 0 <= i < |ks| && FirstSenderOfName(ks, sent, i)
      ensures MergeFields(ks, sent, map[])[ks[i].fieldName] == sent(ks[i]).value
    {
      MergeFieldsFirst(ks, sent, map[], i);
    }
  }

  /** For a record whose keys have unique names: each key that sends something,
      under its own name. */
  function SentFields(r: Record, sent: FieldKey -> Option<Value>): map<string, Value>
    requires UniqueNames(r)
  {
    map k | k in r && sent(k).Some? :: k.fieldName := sent(k).value
  }

  /** A name is merged exactly when some key of the record sends it. */
  lemma MergedNameIsSent(r: Record, ks: seq<FieldKey>, sent: FieldKey -> Option<Value>, n: string)
    requires IsEnumeration(ks, r)
    ensures n in MergeFields(ks, sent, map[]) <==> exists k :: k in r && sent(k).Some? && k.fieldName == n
  {
    MergeFieldsKeys(ks, sent, map[], n);
    if n in MergeFields(ks, sent, map[]) {
      var i :| 0 <= i < |ks| && ks[i].fieldName == n && sent(ks[i]).Some?;
      assert ks[i] in r;
    }
    if exists k :: k in r && sent(k).Some? && k.fieldName == n {
      var k :| k in r && sent(k).Some? && k.fieldName == n;
      var i :| 0 <= i < |ks| && ks[i] == k;
      assert ks[i].fieldName == n && sent(ks[i]).Some?;
    }
  }

  /** When no two keys of the record share a name, the merged fields are exactly
      `SentFields`, whatever the visiting order. */
  lemma MergeIsSentFields(r: Record, ks: seq<FieldKey>, sent: FieldKey -> Option<Value>)
    requires IsEnumeration(ks, r)
    requires UniqueNames(r)
    ensures MergeFields(ks, sent, map[]) == SentFields(r, sent)
  {
    var m := MergeFields(ks, sent, map[]);
    var sf := SentFields(r, sent);
    forall n ensures n in m <==> n in sf {
      MergedNameIsSent(r, ks, sent, n);
    }
    MergeFirstWins(ks, sent);
    forall n | n in m ensures m[n] == sf[n] {
      var i :| 0 <= i < |ks| && ks[i].fieldName == n && sent(ks[i]).Some?;
      assert FirstSenderOfName(ks, sent, i);
    }
  }

  // ------------------------------------------------------- body lemmas

  /** Whether some entry traps does not depend on the order they are visited in. */
  lemma FailureIgnoresOrder(r: Record, ks1: seq<FieldKey>, ks2: seq<FieldKey>, rt: Runtime)
    requires IsEnumeration(ks1, r) && IsEnumeration(ks2, r)
    ensures FirstFailure(ks1, r, rt) == FirstFailure(ks2, r, rt)
  {
    if FirstFailure(ks1, r, rt).None? {
      forall i | 0 <= i < |ks2| && ks2[i] in r ensures EmitField(ks2[i], r[ks2[i]], rt).Ok? {
        var j :| 0 <= j < |ks1| && ks1[j] == ks2[i];
      }
    }
    if FirstFailure(ks2, r, rt).None? {
      forall i | 0 <= i < |ks1| && ks1[i] in r ensures EmitField(ks1[i], r[ks1[i]], rt).Ok? {
        var j :| 0 <= j < |ks2| && ks2[j] == ks1[i];
      }
    }
  }

  /** Two dictionary orders of a record with unique names produce the same body. */
  lemma OrderIrrelevantForUniqueNames(r: Record, ks1: seq<FieldKey>, ks2: seq<FieldKey>, rt: Runtime)
    requires IsEnumeration(ks1, r) && IsEnumeration(ks2, r)
    requires UniqueNames(r)
    ensures JsonOf(r, ks1, rt) == JsonOf(r, ks2, rt)
  {
    FailureIgnoresOrder(r, ks1, ks2, rt);
    MergeIsSentFields(r, ks1, SenderOf(r, rt));
    MergeIsSentFields(r, ks2, SenderOf(r, rt));
  }

  lemma PopulatedUniqueNames(keys: seq<FieldKey>, valueFor: FieldKey -> Option<Value>)
    requires DistinctNames(keys)
    ensures UniqueNames(PopulateAllFields(keys, valueFor))
    ensures forall k :: Lookup(PopulateAllFields(keys, valueFor), k) == if k in keys then valueFor(k) else None
  {
    var r := PopulateAllFields(keys, valueFor);
    forall k ensures Lookup(r, k) == if k in keys then valueFor(k) else None {
      PopulateAllFieldsAt(keys, valueFor, k);
    }
    forall k1, k2 | k1 in r && k2 in r && k1.fieldName == k2.fieldName ensures k1 == k2 {
      assert Lookup(r, k1).Some? && Lookup(r, k2).Some?;
      var i :| 0 <= i < |keys| && keys[i] == k1;
      var j :| 0 <= j < |keys| && keys[j] == k2;
    }
  }

  /** The fields sent for an object whose schema has distinct field names: a key the
      object answers with `nil` is left out, every other key is sent under its own
      name with what its kind makes of the value, and nothing else is sent. */
  lemma PopulatedBody(schema: TableSchema, valueFor: FieldKey -> Option<Value>, rt: Runtime)
    requires ValidRuntime(rt)
    requires DistinctNames(schema.fieldsKeys)
    requires var r := PopulateAllFields(schema.fieldsKeys, valueFor); JsonOf(r, rt.keyOrder(r), rt).Ok?
    ensures var r := PopulateAllFields(schema.fieldsKeys, valueFor);
      var fields := JsonOf(r, rt.keyOrder(r), rt).value["fields"].entries;
      && (forall k :: k in schema.fieldsKeys && valueFor(k).None? ==> k.fieldName !in fields)
      && (forall k :: k in schema.fieldsKeys && valueFor(k).Some? && Emitted(k, valueFor(k).value, rt).Some? ==>
            k.fieldName in fields && fields[k.fieldName] == Emitted(k, valueFor(k).value, rt).value)
      && (forall n :: n in fields ==> exists k :: k in schema.fieldsKeys && k.fieldName == n && valueFor(k).Some?)
  {
    var keys := schema.fieldsKeys;
    var r := PopulateAllFields(keys, valueFor);
    var sent := SenderOf(r, rt);
    PopulatedUniqueNames(keys, valueFor);
    MergeIsSentFields(r, rt.keyOrder(r), sent);
    var fields := JsonOf(r, rt.keyOrder(r), rt).value["fields"].entries;
    assert fields == SentFields(r, sent);
    forall k | k in keys && valueFor(k).None? ensures k.fieldName !in fields {
      var i :| 0 <= i < |keys| && keys[i] == k;
      forall k' | k' in r ensures k'.fieldName != k.fieldName {
        assert Lookup(r, k').Some?;
        var j :| 0 <= j < |keys| && keys[j] == k';
        assert i != j;
      }
    }
    forall k | k in keys && valueFor(k).Some? && Emitted(k, valueFor(k).value, rt).Some?
      ensures k.fieldName in fields && fields[k.fieldName] == Emitted(k, valueFor(k).value, rt).value
    {
      assert Lookup(r, k) == valueFor(k);
    }
    forall n | n in fields ensures exists k :: k in keys && k.fieldName == n && valueFor(k).Some? {
      var k :| k in r && sent(k).Some? && k.fieldName == n;
      assert Lookup(r, k).Some?;
    }
  }
}
