# SwiftAirtable record codec, in Dafny

A model of the schema-driven record codec of SwiftAirtable. The codec is used by
the SwiftUIAirtableDemo app, and the model covers the two domain types that
adopt it, `Content` and `Tag`.

A table is described by a schema: an ordered list of field keys, each a
(name, kind) pair. A domain object gives out a value per key through
`value(forKey:)`. `populateAllFields` collects those values into a record, a
dictionary keyed by field key. `json(of:for:)` turns the record into the request
body `{"fields": {...}}`.

On the way back, `handleFetchResponse` reads a response body. The body is either
a `records` list or a single row. `extractObjects` keeps the rows that have an
`id` and a `fields` object. For each such row, `extractObject` decodes every
schema key found in the row according to its kind, and hands the id and the
record to the domain type's initializer. Delete responses are read for their
boolean `deleted` member. The completion handlers route session errors,
undecodable bodies and decoded objects.

Modules, leaves first:

- `Common`: `Option`, `Result`, the 64-bit `Int64` range, distinctness of a sequence.
- `Wire`: the JSON values a response or request body holds, and the parse outcome.
- `Fields`: these parts:
  - attachments, with their dirty flag;
  - `Value`, with the default and overriding projections of `AirtableValue`;
  - key kinds, field keys, schemas and records;
  - the error cases;
  - the `Runtime` of Foundation behaviour the codec calls but does not define;
  - serialisability (`JSONSerialization.data`).
- `Decoder`: `extractObject`, `extractObjects` and `handleFetchResponse`.
- `Encoder`: `populateAllFields`, the per-kind emission of `json(of:for:)`, the first-wins merge, and `data(of:for:)`.
- `Responses`: the completion routing of fetch, create/update and delete.
- `Codec`: the two halves together. A populated record of plain values survives encoding and decoding. Plain values are texts, integers, booleans, lists of texts and non-empty lists of clean attachments.
- `ContentModel` and `TagModel`: the two demo types, with their field lists, initializers and `value(forKey:)`. Both round trips are proved for each type.

Parameters stand for what the model does not define:

- The `Runtime` datatype gathers these Foundation behaviours:
  - the `description` of values without their own text form;
  - `URL(string:)`;
  - the `yyyy-MM-dd'T'HH:mm:ss.SSSZZZZ` date formatter, in both directions;
  - the iteration order of a dictionary keyed by field keys.
- Lemmas that need the iteration order to visit every key once require `ValidRuntime`.
- The domain type's `value(forKey:)` is a function parameter `valueFor`.
- The domain type's initializer is a function parameter `make`.

Behaviour of the code that is easy to miss, which the model follows as written:

- **Merge order.** When two entries send the same field name, the one sent first
  in the populated dictionary's iteration order wins. Schema order plays no part
  (`Encoder.MergeFirstWins`).
- **Row fallback.** A top-level object whose `records` member is missing, or is
  not a list of objects, is not a format error. It is decoded as a single row
  (`Decoder.FetchShapes`).
- **Date values.** A date field whose wire value is not a string leaves the
  record unchanged. A string that does not parse removes the entry.
- **Completions.** A completion is not always called exactly once. It is never
  called when the session returns neither data nor an error
  (`Responses.FetchCompletion`, `Responses.DeleteCompletion`).
- **Encode failures stop the program.** A formatted date made only of dots leaves
  the forced unwrap `first!` nothing to unwrap, which traps. A body holding a raw
  date or attachment makes `JSONSerialization` raise an Objective-C exception. The `do`/`catch` around the
  body catches neither, so a create or update whose body cannot be built never
  reaches its completion (`Responses.WriteCompletion`).

## Model

| member | source | states |
|---|---|---|
| `Wire.Strings` | Pods/SwiftAirtable/SwiftAirtable/Classes/Airtable.swift:422 | the `as? [String]` cast keeps every element, each being the JSON string of the text at the same position |
| `Wire.Objects` | Pods/SwiftAirtable/SwiftAirtable/Classes/Airtable.swift:378 | the `as? [[String: Any]]` cast keeps every element, each being the JSON object of the dictionary at the same position |
| `Wire.TopLevel` | Pods/SwiftAirtable/SwiftAirtable/Classes/Airtable.swift:377 | called without `.fragmentsAllowed`, the parser throws on text that is not JSON and on a top-level value that is neither an array nor an object, and returns any other document unchanged |
| `Fields.NewAttachment` | Pods/SwiftAirtable/SwiftAirtable/Classes/Airtable.swift:112-117 | a newly made attachment has the given file name and url, and its dirty flag is down |
| `Fields.AssignUrlsDirtyFlag` | Pods/SwiftAirtable/SwiftAirtable/Classes/Airtable.swift:88-98 | after a series of url assignments, the flag is up iff it was up before or some assignment changed the url. The url is the last one assigned, and the file name is unchanged |
| `Fields.SameAttachmentIsEqualityUpToFlag` | Pods/SwiftAirtable/SwiftAirtable/Classes/Airtable.swift:100-104 | attachment `==` is structural equality once the dirty flag is disregarded, and it is an equivalence |
| `Fields.Put` | Pods/SwiftAirtable/SwiftAirtable/Classes/Airtable.swift:191-195 | a subscript assignment makes the key hold the assigned optional, where `nil` removes the entry; every other key is untouched |
| `Fields.IntDescription` | Pods/SwiftAirtable/SwiftAirtable/Classes/Airtable.swift:50-58 | an `Int`'s text is non-empty and starts with `-` exactly when the number is negative |
| `Fields.ParseNatDigits` | Pods/SwiftAirtable/SwiftAirtable/Classes/Airtable.swift:50-58 | the decimal digits of a natural number read back as that number |
| `Fields.IntDescriptionReadsBack` | Pods/SwiftAirtable/SwiftAirtable/Classes/Airtable.swift:50-58 | an `Int`'s description reads back as the number, sign included |
| `Fields.ProjectionsAreOwnOrSentinel` | Pods/SwiftAirtable/SwiftAirtable/Classes/Airtable.swift:39-70 | `stringValue` and `intValue` of an `Int` agree, and two integers with the same text are equal. A string's `stringValue` is itself. Every projection a type does not override returns its sentinel: `Int.min`, `false`, the epoch, `[]`, `[:]` or `nil` |
| `Fields.ToJson` | Pods/SwiftAirtable/SwiftAirtable/Classes/Airtable.swift:443-445 | a serialised dictionary is a JSON object with the same member names |
| `Decoder.WellFormedAttachments` | Pods/SwiftAirtable/SwiftAirtable/Classes/Airtable.swift:428-434 | only attachments are produced, and no more of them than there are wire elements |
| `Decoder.AccumulateOnto` | Pods/SwiftAirtable/SwiftAirtable/Classes/Airtable.swift:428-434 | the attachment loop appends the well-formed elements, in wire order, to the attachments already stored |
| `Decoder.AccumulateFromAbsent` | Pods/SwiftAirtable/SwiftAirtable/Classes/Airtable.swift:428-434 | starting from no entry, the key ends up holding the well-formed attachments, or stays absent when there are none |
| `Decoder.AllWellFormed` | Pods/SwiftAirtable/SwiftAirtable/Classes/Airtable.swift:428-434 | wire elements that each read as an attachment are all kept, each as the attachment at the same position |
| `Decoder.StringValuesSerialise` | Pods/SwiftAirtable/SwiftAirtable/Classes/Airtable.swift:422 | the texts the link rule reads from a list of JSON strings serialise back to that same list |
| `Decoder.DecodeRules` | Pods/SwiftAirtable/SwiftAirtable/Classes/Airtable.swift:418-435 | the per-kind rules for a fresh key. Text needs a string and a number needs an `Int` in range. A checkbox keeps `false` for a non-boolean. A link needs a list of strings, and its texts are kept in order. A date is kept only when its string parses. Attachments keep the well-formed elements, or nothing |
| `Decoder.ExtractFieldsAt` | Pods/SwiftAirtable/SwiftAirtable/Classes/Airtable.swift:414-440 | for distinct schema keys, the `forEach` changes a key only if it is in the schema and its name is on the wire, and then to what its rule makes of the wire value |
| `Decoder.DecodeRecordAt` | Pods/SwiftAirtable/SwiftAirtable/Classes/Airtable.swift:411-442 | a decoded record has no entry for keys outside the schema or missing from the row (no defaults), and holds each rule's result otherwise |
| `Decoder.CheckboxAndTextPresence` | Pods/SwiftAirtable/SwiftAirtable/Classes/Airtable.swift:417-421 | a checkbox key is present iff its name is on the wire, and holds `false` for a non-boolean. A text key is present iff its wire value is a string |
| `Decoder.RowObjects` | Pods/SwiftAirtable/SwiftAirtable/Classes/Airtable.swift:405-408 | a row yields one object when it has a string `id` and an object `fields`, and none otherwise |
| `Decoder.ExtractObjects` | Pods/SwiftAirtable/SwiftAirtable/Classes/Airtable.swift:403-409 | never more objects than rows, and exactly one per row when every row is well formed |
| `Decoder.ExtractObjectsAppend` | Pods/SwiftAirtable/SwiftAirtable/Classes/Airtable.swift:403-409 | extraction distributes over concatenation of row lists, so rows are handled independently and in order |
| `Decoder.ExtractObjectsSingle` | Pods/SwiftAirtable/SwiftAirtable/Classes/Airtable.swift:403-409 | one row yields exactly the object the initializer makes from its id and decoded fields, or nothing when it is malformed |
| `Decoder.HandleFetchResponse` | Pods/SwiftAirtable/SwiftAirtable/Classes/Airtable.swift:374-401 | there is no error iff the body parses to an object. The parser's error comes back for text that is not JSON and for a top-level scalar, which the parser refuses. A top-level array is `invalidFormat`. An error comes with no objects |
| `Decoder.FetchShapes` | Pods/SwiftAirtable/SwiftAirtable/Classes/Airtable.swift:377-392 | an object with a `records` list of objects yields those rows' objects; any other object is decoded as a single row |
| `Decoder.ListAndSingleAgree` | Pods/SwiftAirtable/SwiftAirtable/Classes/Airtable.swift:378-391 | a row wrapped in a one-element `records` list yields the same result as the bare row |
| `Encoder.PopulateFromAt` | Pods/SwiftAirtable/SwiftAirtable/Classes/Airtable.swift:185-196 | after the `reduce`, each listed key holds the object's answer (absent when `nil`) and every other key keeps the accumulator's entry |
| `Encoder.PopulateAllFieldsAt` | Pods/SwiftAirtable/SwiftAirtable/Classes/Airtable.swift:185-196 | the populated record holds the object's answer for exactly the schema keys that have one |
| `Encoder.UpToDot` | Pods/SwiftAirtable/SwiftAirtable/Classes/Airtable.swift:458 | the leading part before the first `.` is a dot-free prefix that ends at a dot or at the end |
| `Encoder.FirstPiece` | Pods/SwiftAirtable/SwiftAirtable/Classes/Airtable.swift:458 | `split(separator: ".").first` is missing iff the text is all dots; otherwise it is a non-empty dot-free piece |
| `Encoder.FirstPieceIsFirst` | Pods/SwiftAirtable/SwiftAirtable/Classes/Airtable.swift:458 | the piece is the one that starts at the first character that is not a dot, and runs up to the next dot |
| `Encoder.EmitField` | Pods/SwiftAirtable/SwiftAirtable/Classes/Airtable.swift:450-467 | the only way emitting a field can fail is the forced unwrap on a formatted date with no digits |
| `Encoder.DateEmission` | Pods/SwiftAirtable/SwiftAirtable/Classes/Airtable.swift:455-459 | a date key is left out iff its date projection is the epoch, which covers every non-date. Otherwise emission traps iff the formatted text is all dots, and else sends its first dot-free piece followed by `.000Z`. Every other kind always sends a value |
| `Encoder.SingleAttachmentAsList` | Pods/SwiftAirtable/SwiftAirtable/Classes/Airtable.swift:460-466 | a lone attachment is sent exactly as a one-element attachment list, as `[{filename, url}]` |
| `Encoder.FirstFailure` | Pods/SwiftAirtable/SwiftAirtable/Classes/Airtable.swift:448-458 | the body fails to build iff some entry's emission traps, and the failure is then the missing date digits |
| `Encoder.JsonOf` | Pods/SwiftAirtable/SwiftAirtable/Classes/Airtable.swift:447-473 | a built body has the single member `fields`, holding a dictionary |
| `Encoder.DataOf` | Pods/SwiftAirtable/SwiftAirtable/Classes/Airtable.swift:443-445 | a serialised body is a JSON object whose only member is the object `fields` |
| `Encoder.MergeFieldsKeepsAcc` | Pods/SwiftAirtable/SwiftAirtable/Classes/Airtable.swift:469-471 | `merging` with "keep current" never replaces a name already merged |
| `Encoder.MergeFieldsKeys` | Pods/SwiftAirtable/SwiftAirtable/Classes/Airtable.swift:469-471 | a name is in the merge iff it was there before or some visited entry sends it |
| `Encoder.MergeFieldsFirst` | Pods/SwiftAirtable/SwiftAirtable/Classes/Airtable.swift:469-471 | a new name ends up holding the value of the first visited entry that sends it |
| `Encoder.MergeFirstWins` | Pods/SwiftAirtable/SwiftAirtable/Classes/Airtable.swift:469-471 | the merged fields hold exactly the sent names, each with the value of its first sender in iteration order |
| `Encoder.MergedNameIsSent` | Pods/SwiftAirtable/SwiftAirtable/Classes/Airtable.swift:448-471 | when the visiting order lists every key of the record, a name is merged iff some key of the record with that name sends a value |
| `Encoder.MergeIsSentFields` | Pods/SwiftAirtable/SwiftAirtable/Classes/Airtable.swift:448-471 | for a record with unique names, the merge equals the name-indexed dictionary of the sent values, whatever the visiting order |
| `Encoder.FailureIgnoresOrder` | Pods/SwiftAirtable/SwiftAirtable/Classes/Airtable.swift:448-458 | whether building the body traps does not depend on dictionary order |
| `Encoder.OrderIrrelevantForUniqueNames` | Pods/SwiftAirtable/SwiftAirtable/Classes/Airtable.swift:447-473 | with unique field names, the body does not depend on dictionary order |
| `Encoder.PopulatedUniqueNames` | Pods/SwiftAirtable/SwiftAirtable/Classes/Airtable.swift:185-196 | a schema with distinct names populates a record with unique names, which holds each schema key's answer |
| `Encoder.PopulatedBody` | Pods/SwiftAirtable/SwiftAirtable/Classes/Airtable.swift:447-473 | a key without an answer is omitted, and a key whose answer sends something appears under its name with that emission. No other name appears |
| `Responses.DeleteResponse` | Pods/SwiftAirtable/SwiftAirtable/Classes/Airtable.swift:356-366 | success iff the body parses to an object with a boolean `deleted`, and the result is that boolean. Anything else is `(false, invalidFormat)` |
| `Responses.DeleteCompletion` | Pods/SwiftAirtable/SwiftAirtable/Classes/Airtable.swift:352-368 | the completion runs iff the session gave an error or data. A session error wins as `(false, error)`; otherwise the body is read |
| `Responses.DeleteExamples` | Pods/SwiftAirtable/SwiftAirtable/Classes/Airtable.swift:352-368 | `{"deleted": true}` gives `(true, nil)`, `{}` gives `(false, invalidFormat)`, and a session error wins over the body |
| `Responses.FetchCompletion` | Pods/SwiftAirtable/SwiftAirtable/Classes/Airtable.swift:247-253 | the completion runs iff the session gave an error or data. A session error wins and gives no objects; otherwise the result is `handleFetchResponse` of the body. Any error comes with no objects |
| `Responses.WriteCompletion` | Pods/SwiftAirtable/SwiftAirtable/Classes/Airtable.swift:287-306 | a body that cannot be built stops the program with its failure, and the completion is never called. Otherwise the completion runs iff the session answered. A session error wins with no object; else the completion gets the response's error and the first decoded object, present iff any object was decoded. An error comes with no object |
| `Codec.PlainEmits` | Pods/SwiftAirtable/SwiftAirtable/Classes/Airtable.swift:450-466 | a value of its key's plain shape never traps and is always sent; every kind but attachments sends it unchanged |
| `Codec.AttachmentJsonReadsBack` | Pods/SwiftAirtable/SwiftAirtable/Classes/Airtable.swift:428-434 | an attachment's `{filename, url}` dictionary serialises to an object that the attachment rule reads back as the same attachment with its flag down |
| `Codec.AttachmentsReadBack` | Pods/SwiftAirtable/SwiftAirtable/Classes/Airtable.swift:428-434 | a non-empty list of clean attachments is sent as JSON that the attachment rule, starting from no entry, reads back as the same list |
| `Codec.PlainReadsBack` | Pods/SwiftAirtable/SwiftAirtable/Classes/Airtable.swift:418-422 | a plain value serialises, and its key's decoding rule turns the JSON back into it |
| `Codec.SentPlainFields` | Pods/SwiftAirtable/SwiftAirtable/Classes/Airtable.swift:447-473 | for plain answers nothing traps, and the merged `fields` hold exactly the answered keys' names, each with what its key emits for the answer |
| `Codec.EncodedFields` | Pods/SwiftAirtable/SwiftAirtable/Classes/Airtable.swift:443-473 | for plain answers the body is `{"fields": w}`, where `w` has exactly the answered names, each holding the JSON of its key's emission |
| `Codec.WireRoundTrip` | Pods/SwiftAirtable/SwiftAirtable/Classes/Airtable.swift:411-473 | decoding the written `fields` with the same schema gives back the populated record |
| `ContentModel.ViewTypeFromRaw` | SwiftUIAirtableDemo/Models/Content.swift:12-17 | the raw-value initializer finds a case iff that case's raw value is the text |
| `ContentModel.TypeOf` | SwiftUIAirtableDemo/Models/Content.swift:26-29 | `type` is the case the stored text names, or `hi` when it names none |
| `ContentModel.FieldFromRaw` | SwiftUIAirtableDemo/Models/Content.swift:35-39 | a field is found iff its raw value is the name |
| `ContentModel.FieldKeys` | SwiftUIAirtableDemo/Models/Content.swift:35-70 | the keys are view (single select), position (number) and title (single-line text), in that order |
| `ContentModel.Schema` | Pods/SwiftAirtable/SwiftAirtable/Classes/Airtable.swift:180-183 | the schema's names are distinct and it contains every field's key |
| `ContentModel.InitStep` | SwiftUIAirtableDemo/Models/Content.swift:58-65 | one entry sets the field of the same name, whatever the entry's kind, and leaves the id and the other fields alone |
| `ContentModel.InitFrom` | SwiftUIAirtableDemo/Models/Content.swift:58-65 | the `forEach` never changes the id |
| `ContentModel.InitFromUntouched` | SwiftUIAirtableDemo/Models/Content.swift:58-65 | a field that no visited entry names keeps its value |
| `ContentModel.InitFromLastWins` | SwiftUIAirtableDemo/Models/Content.swift:58-65 | a field ends up with what the last visited entry of its name makes of its value |
| `ContentModel.InitSlot` | SwiftUIAirtableDemo/Models/Content.swift:55-66 | with unique names, each field holds what the entry of its name gives, or its default when there is none |
| `ContentModel.InitReads` | SwiftUIAirtableDemo/Models/Content.swift:55-66 | the initializer keeps the id, and reads view and title through `stringValue` and position through `intValue`. Missing fields default to `""`, `0` and `""` |
| `ContentModel.ValueFor` | SwiftUIAirtableDemo/Models/Content.swift:72-79 | there is an answer exactly for the three schema keys, compared by name and kind, and each answer has its kind's plain shape |
| `ContentModel.InitThenValueFor` | SwiftUIAirtableDemo/Models/Content.swift:55-79 | initializing from plain values and asking for each schema key gives those values back |
| `ContentModel.ValueForThenInit` | SwiftUIAirtableDemo/Models/Content.swift:55-79 | populating from a content value and initializing from the result rebuilds the same value |
| `ContentModel.WireRoundTripContent` | SwiftUIAirtableDemo/Models/Content.swift:53-79 | the body written for a content value, read back as a row with the same schema, rebuilds the same value |
| `ContentModel.WelcomeEncoding` | SwiftUIAirtableDemo/Models/Content.swift:72-79 | content `HiView`/1/"Welcome" is written as `{"fields": {"view": "HiView", "position": 1, "title": "Welcome"}}` |
| `ContentModel.WelcomeFieldsDecode` | SwiftUIAirtableDemo/Models/Content.swift:55-66 | the example `fields` object, decoded with the content schema, initializes to content `rec1` with view `HiView`, position 1 and title `Welcome` |
| `ContentModel.WelcomeRow` | SwiftUIAirtableDemo/Models/Content.swift:55-66 | that row, in a `records` list, decodes to exactly that content of type `hi`, and writing it back gives the same `fields` |
| `TagModel.CategoryOf` | SwiftUIAirtableDemo/Models/Tag.swift:23-25 | `category` is the case the raw-value initializer finds for the stored text, or `fruit` when it finds none |
| `TagModel.FieldFromRaw` | SwiftUIAirtableDemo/Models/Tag.swift:29-32 | a field is found iff its raw value is the name |
| `TagModel.FieldKeys` | SwiftUIAirtableDemo/Models/Tag.swift:29-61 | the keys are tag (single-line text) and category (single select), in that order |
| `TagModel.Schema` | Pods/SwiftAirtable/SwiftAirtable/Classes/Airtable.swift:180-183 | the schema's names are distinct and it contains every field's key |
| `TagModel.InitStep` | SwiftUIAirtableDemo/Models/Tag.swift:50-56 | one entry sets the field of the same name to its `stringValue`, whatever the entry's kind, and leaves the id and the other field alone |
| `TagModel.InitFrom` | SwiftUIAirtableDemo/Models/Tag.swift:50-56 | the `forEach` never changes the id |
| `TagModel.InitFromUntouched` | SwiftUIAirtableDemo/Models/Tag.swift:50-56 | a field that no visited entry names keeps its value |
| `TagModel.InitFromLastWins` | SwiftUIAirtableDemo/Models/Tag.swift:50-56 | a field ends up with the `stringValue` of the last visited entry of its name |
| `TagModel.InitSlot` | SwiftUIAirtableDemo/Models/Tag.swift:47-57 | with unique names, each field holds the `stringValue` of the entry of its name, or `""` when there is none |
| `TagModel.InitReads` | SwiftUIAirtableDemo/Models/Tag.swift:47-57 | the initializer keeps the id and reads tag and category through `stringValue`, defaulting to `""` |
| `TagModel.ValueFor` | SwiftUIAirtableDemo/Models/Tag.swift:63-69 | there is an answer exactly for the two schema keys, compared by name and kind, and both answers are text |
| `TagModel.InitThenValueFor` | SwiftUIAirtableDemo/Models/Tag.swift:47-69 | initializing from text values and asking for each schema key gives those values back |
| `TagModel.ValueForThenInit` | SwiftUIAirtableDemo/Models/Tag.swift:47-69 | populating from a tag and initializing from the result rebuilds the same tag |
| `TagModel.WireRoundTripTag` | SwiftUIAirtableDemo/Models/Tag.swift:45-70 | the body written for a tag, read back as a row with the same schema, rebuilds the same tag |

## Left out

- Networking: URL construction with percent encoding, the URL sessions, the bearer and content-type headers, and starting tasks. The session's answer is a parameter: an optional error text and an optional parsed body.
- JSON parsing (`JSONSerialization.jsonObject`). A body arrives as a JSON value or marked as not JSON, and `Wire.TopLevel` applies the parser's refusal of top-level scalars. NSNumber bridging between booleans and integers is not modelled, so a JSON boolean is never an `Int` and vice versa. The parser's own error is modelled as the single case `MalformedJson`.
- Invalid URLs: when `URL(string:)` fails, the operation prints and returns without calling its completion. This is not modelled.
- The date formatter's behaviour and `description` of dates, arrays and dictionaries. These are `Runtime` parameters.
- `doubleValue` and `Double` values, because no key kind reads or writes them.
- `AirtableAttachment.hashValue`, and the random `hashValue` of field keys. Field keys are compared and hashed structurally. The random hash is a defect: equal keys could land in different buckets. The model does not reproduce it.
- The diagnostic `print` for a schema field missing from a row.
- `Tag`'s `Category` enumeration is not part of this model. It enters only as its raw-value initializer and its `fruit` case.
- `airtableViewName`, `AppState`, `AirtableService` and the SwiftUI views: they are app plumbing around the codec.
- `Codec.WireRoundTrip`: proved for values of their key's plain shape only. Dates go through the formatter, which is a parameter, and lose their sub-second part. A lone attachment comes back as a one-element list. An empty attachment list comes back as no entry. An attachment's dirty flag is not sent, so attachments come back clean.
- String comparison: texts are compared by their characters, one by one. Swift's `String ==` and `String`-keyed dictionaries treat canonically equivalent texts (a precomposed `é` and `e` followed by a combining accent) as equal. So the model can tell apart field names, urls and file names that Swift treats as the same. This affects matching field names against a row, the merge of sent fields, the dirty flag of an attachment's url, attachment `==`, and the demo types' raw-value lookups. Every field name of the two demo schemas is ASCII, where both comparisons agree.
- `ContentModel.InitSlot`, `ContentModel.InitReads`, `TagModel.InitSlot`, `TagModel.InitReads`: proved for records with unique field names only. With a repeated name, last-wins in dictionary order still holds (`InitFromLastWins`).
- `Encoder.MergeIsSentFields`, `Encoder.OrderIrrelevantForUniqueNames`, `Encoder.PopulatedBody`: proved for unique field names and a dictionary order that visits every key once. For repeated names, `Encoder.MergeFirstWins` states the order-dependent result.
