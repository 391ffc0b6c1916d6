/** How messages are mapped to MessagePack values and back: the raw replication messages of cultnet.schema.v0 and the
    legacy messages of gamecult.networking.v0. */
module Contracts {
  import opened Prelude
  import opened Text
  import opened Messages
  import Utf8
  import Base64Url

  /** A MessagePack value; floats and extensions are lumped together as Other. */
  datatype WireValue =
    | Nil
    | Boolean(b: bool)
    | Integer(n: int)
    | Str(text: string)
    | Binary(bytes: Bytes)
    | Array(items: seq<WireValue>)
    | Map(entries: seq<(WireValue, WireValue)>)
    | Other

  datatype WireError =
    | Blank
    | EmptyPayload
    | NoWireContracts
    | NotAnObject
    | NotAnArray
    | NotAString
    | NotABool
    | NotBinary
    | NotAnInteger
    | NotAPair
    | UnsupportedValue(text: string)
    | UnsupportedVersion(text: string)
    | UnsupportedTag(tag: int)
    | NotInContract
    | InvalidBase64
    | NotARawMessage

  // ---- Reading values

  /** The first value under a name. */
  function Get(entries: seq<(WireValue, WireValue)>, name: string): Option<WireValue> {
    if entries == [] then None
    else if entries[0].0 == Str(name) then Some(entries[0].1)
    else Get(entries[1..], name)
  }

  function At(items: seq<WireValue>, k: nat): Option<WireValue> {
    if k < |items| then Some(items[k]) else None
  }

  function RequireString(value: Option<WireValue>): Result<string, WireError> {
    if value.Some? && value.value.Str? then Ok(value.value.text) else Err(NotAString)
  }

  function OptionalString(value: Option<WireValue>): Result<Option<string>, WireError> {
    if value.None? || value.value.Nil? then Ok(None)
    else
      var text :- RequireString(value);
      Ok(Some(text))
  }

  function RequireBool(value: Option<WireValue>): Result<bool, WireError> {
    if value.Some? && value.value.Boolean? then Ok(value.value.b) else Err(NotABool)
  }

  function RequireArray(value: Option<WireValue>): Result<seq<WireValue>, WireError> {
    if value.Some? && value.value.Array? then Ok(value.value.items) else Err(NotAnArray)
  }

  function RequireObject(value: Option<WireValue>): Result<seq<(WireValue, WireValue)>, WireError> {
    if value.Some? && value.value.Map? then Ok(value.value.entries) else Err(NotAnObject)
  }

  /** Strings count as their UTF-8 bytes. */
  function RequireBytes(value: Option<WireValue>): Result<Bytes, WireError> {
    if value.None? then Err(NotBinary)
    else match value.value
      case Binary(bytes) => Ok(bytes)
      case Str(text) => Ok(Utf8.StringBytes(text))
      case _ => Err(NotBinary)
  }

  function RequireStrings(items: seq<WireValue>): Result<seq<string>, WireError> {
    if items == [] then Ok([])
    else
      var first :- RequireString(Some(items[0]));
      var rest :- RequireStrings(items[1..]);
      Ok([first] + rest)
  }

  function OptionalStrings(value: Option<WireValue>): Result<Option<seq<string>>, WireError> {
    if value.None? || value.value.Nil? then Ok(None)
    else
      var items :- RequireArray(value);
      var strings :- RequireStrings(items);
      Ok(Some(strings))
  }

  // ---- Writing values

  function OrNil(text: Option<string>): WireValue {
    if text.Some? then Str(text.value) else Nil
  }

  function Strs(values: seq<string>): seq<WireValue> {
    seq(|values|, i requires 0 <= i < |values| => Str(values[i]))
  }

  function StringsOrNil(values: Option<seq<string>>): WireValue {
    if values.Some? then Array(Strs(values.value)) else Nil
  }

  // ---- Raw replication messages

  const DOCUMENT_PUT_RAW := "cultnet.document_put_raw.v0"
  const SNAPSHOT_RESPONSE_RAW := "cultnet.snapshot_response_raw.v0"

  function EncodeRawDocument(d: RawDocument): WireValue {
    Map([
      (Str("schemaId"), Str(d.schemaId)),
      (Str("recordKey"), Str(d.recordKey)),
      (Str("storedAt"), Str(d.storedAt)),
      (Str("payloadEncoding"), Str("messagepack")),
      (Str("payload"), Binary(d.payload)),
      (Str("sourceRuntimeId"), OrNil(d.sourceRuntimeId)),
      (Str("sourceAgentId"), OrNil(d.sourceAgentId)),
      (Str("sourceRole"), OrNil(d.sourceRole)),
      (Str("tags"), StringsOrNil(d.tags))
    ])
  }

  function ParseRawDocument(value: Option<WireValue>): Result<RawDocument, WireError> {
    var fields :- RequireObject(value);
    var encoding :- RequireString(Get(fields, "payloadEncoding"));
    var schemaId :- RequireString(Get(fields, "schemaId"));
    var recordKey :- RequireString(Get(fields, "recordKey"));
    var storedAt :- RequireString(Get(fields, "storedAt"));
    if encoding != "messagepack" then Err(UnsupportedValue(encoding))
    else
      var payload :- RequireBytes(Get(fields, "payload"));
      var sourceRuntimeId :- OptionalString(Get(fields, "sourceRuntimeId"));
      var sourceAgentId :- OptionalString(Get(fields, "sourceAgentId"));
      var sourceRole :- OptionalString(Get(fields, "sourceRole"));
      var tags :- OptionalStrings(Get(fields, "tags"));
      Ok(RawDocument(schemaId, recordKey, storedAt, Messagepack, payload,
                      sourceRuntimeId, sourceAgentId, sourceRole, tags))
  }

  function EncodeRawDocuments(docs: seq<RawDocument>): seq<WireValue> {
    seq(|docs|, i requires 0 <= i < |docs| => EncodeRawDocument(docs[i]))
  }

  function ParseRawDocuments(items: seq<WireValue>): Result<seq<RawDocument>, WireError> {
    if items == [] then Ok([])
    else
      var first :- ParseRawDocument(Some(items[0]));
      var rest :- ParseRawDocuments(items[1..]);
      Ok([first] + rest)
  }

  function EncodeRaw(m: Message): Result<WireValue, WireError> {
    match m
    case DocumentPutRaw(messageId, document) =>
      Ok(Map([
        (Str("schemaVersion"), Str(DOCUMENT_PUT_RAW)),
        (Str("messageId"), Str(messageId)),
        (Str("document"), EncodeRawDocument(document))
      ]))
    case SnapshotResponseRaw(messageId, documents) =>
      Ok(Map([
        (Str("schemaVersion"), Str(SNAPSHOT_RESPONSE_RAW)),
        (Str("messageId"), Str(messageId)),
        (Str("documents"), Array(EncodeRawDocuments(documents)))
      ]))
    case _ => Err(NotInContract)
  }

  function ParseRaw(w: WireValue): Result<Message, WireError> {
    var fields :- RequireObject(Some(w));
    var version :- RequireString(Get(fields, "schemaVersion"));
    if version == DOCUMENT_PUT_RAW then
      var messageId :- RequireString(Get(fields, "messageId"));
      var document :- ParseRawDocument(Get(fields, "document"));
      Ok(DocumentPutRaw(messageId, document))
    else if version == SNAPSHOT_RESPONSE_RAW then
      var items :- RequireArray(Get(fields, "documents"));
      var documents :- ParseRawDocuments(items);
      var messageId :- RequireString(Get(fields, "messageId"));
      Ok(SnapshotResponseRaw(messageId, documents))
    else Err(UnsupportedVersion(version))
  }

  // ---- Reading back what was written

  /** A name is found at the first entry that carries it. */
  lemma {:induction false} GetAt(entries: seq<(WireValue, WireValue)>, name: string, k: nat)
    requires k < |entries| && entries[k].0 == Str(name)
    requires forall i :: 0 <= i < k ==> entries[i].0 != Str(name)
    ensures Get(entries, name) == Some(entries[k].1)
  {
    if k > 0 { GetAt(entries[1..], name, k - 1); }
  }

  lemma OptionalStringReadsBack(text: Option<string>)
    ensures OptionalString(Some(OrNil(text))) == Ok(text)
  {
  }

  lemma {:induction false} StringsReadBack(values: seq<string>)
    ensures RequireStrings(Strs(values)) == Ok(values)
  {
    if values != [] {
      StringsReadBack(values[1..]);
      assert Strs(values)[0] == Str(values[0]) && Strs(values)[1..] == Strs(values[1..]);
      assert [values[0]] + values[1..] == values;
    }
  }

  lemma OptionalStringsReadBack(values: Option<seq<string>>)
    ensures OptionalStrings(Some(StringsOrNil(values))) == Ok(values)
  {
    if values.Some? { StringsReadBack(values.value); }
  }

  const RAW_NAMES := ["schemaId", "recordKey", "storedAt", "payloadEncoding", "payload",
                      "sourceRuntimeId", "sourceAgentId", "sourceRole", "tags"]

  ghost predicate Distinct(names: seq<string>) {
    forall i, j :: 0 <= i < j < |names| ==> names[i] != names[j]
  }

  lemma RawNamesAreDistinct()
    ensures Distinct(RAW_NAMES)
  {
  }

  ghost predicate Named(entries: seq<(WireValue, WireValue)>, names: seq<string>) {
    |entries| == |names| && forall i :: 0 <= i < |names| ==> entries[i].0 == Str(names[i])
  }

  lemma GetNamed(entries: seq<(WireValue, WireValue)>, names: seq<string>, k: nat)
    requires Named(entries, names) && Distinct(names) && k < |names|
    ensures Get(entries, names[k]) == Some(entries[k].1)
  {
    GetAt(entries, names[k], k);
  }

  lemma RawFields(d: RawDocument)
    ensures var entries := EncodeRawDocument(d).entries;
      && Get(entries, "schemaId") == Some(Str(d.schemaId))
      && Get(entries, "recordKey") == Some(Str(d.recordKey))
      && Get(entries, "storedAt") == Some(Str(d.storedAt))
      && Get(entries, "payloadEncoding") == Some(Str("messagepack"))
      && Get(entries, "payload") == Some(Binary(d.payload))
      && Get(entries, "sourceRuntimeId") == Some(OrNil(d.sourceRuntimeId))
      && Get(entries, "sourceAgentId") == Some(OrNil(d.sourceAgentId))
      && Get(entries, "sourceRole") == Some(OrNil(d.sourceRole))
      && Get(entries, "tags") == Some(StringsOrNil(d.tags))
  {
    var entries := EncodeRawDocument(d).entries;
    RawNamesAreDistinct();
    assert Named(entries, RAW_NAMES);
    hide Get, OrNil, StringsOrNil, Distinct, Named;
    GetNamed(entries, RAW_NAMES, 0);
    GetNamed(entries, RAW_NAMES, 1);
    GetNamed(entries, RAW_NAMES, 2);
    GetNamed(entries, RAW_NAMES, 3);
    GetNamed(entries, RAW_NAMES, 4);
    GetNamed(entries, RAW_NAMES, 5);
    GetNamed(entries, RAW_NAMES, 6);
    GetNamed(entries, RAW_NAMES, 7);
    GetNamed(entries, RAW_NAMES, 8);
  }

  lemma RawDocumentReadsBack(d: RawDocument)
    ensures ParseRawDocument(Some(EncodeRawDocument(d))) == Ok(d)
  {
    RawFields(d);
    OptionalStringReadsBack(d.sourceRuntimeId);
    OptionalStringReadsBack(d.sourceAgentId);
    OptionalStringReadsBack(d.sourceRole);
    OptionalStringsReadBack(d.tags);
    hide Get, OrNil, StringsOrNil, OptionalString, OptionalStrings;
    assert d.payloadEncoding == Messagepack;
  }

  lemma {:induction false} RawDocumentsReadBack(docs: seq<RawDocument>)
    ensures ParseRawDocuments(EncodeRawDocuments(docs)) == Ok(docs)
  {
    hide EncodeRawDocument, ParseRawDocument;
    if docs != [] {
      var items := EncodeRawDocuments(docs);
      RawDocumentReadsBack(docs[0]);
      RawDocumentsReadBack(docs[1..]);
      assert items[0] == EncodeRawDocument(docs[0]) && items[1..] == EncodeRawDocuments(docs[1..]);
      assert [docs[0]] + docs[1..] == docs;
    }
  }

  lemma RawEnvelope(m: Message, names: seq<string>)
    requires EncodeRaw(m).Ok?
    requires names == ["schemaVersion", "messageId", if m.DocumentPutRaw? then "document" else "documents"]
    ensures var entries := EncodeRaw(m).value.entries;
      && Get(entries, names[0]) == Some(entries[0].1) && Get(entries, names[1]) == Some(entries[1].1)
      && Get(entries, names[2]) == Some(entries[2].1)
  {
    var entries := EncodeRaw(m).value.entries;
    assert Distinct(names) && Named(entries, names);
    hide EncodeRaw, Get, Distinct, Named;
    GetNamed(entries, names, 0);
    GetNamed(entries, names, 1);
    GetNamed(entries, names, 2);
  }

  /** Parsing undoes encoding for every raw replication message the encoder accepts. */
  lemma RawMessagesReadBack(m: Message)
    requires EncodeRaw(m).Ok?
    ensures ParseRaw(EncodeRaw(m).value) == Ok(m)
  {
    RawEnvelope(m, ["schemaVersion", "messageId", if m.DocumentPutRaw? then "document" else "documents"]);
    hide EncodeRawDocument, ParseRawDocument, EncodeRawDocuments, ParseRawDocuments, Get;
    match m
    case DocumentPutRaw(_, d) => RawDocumentReadsBack(d);
    case SnapshotResponseRaw(_, docs) => RawDocumentsReadBack(docs);
    case _ =>
  }

  // ---- Legacy messages

  function LegacyBytes(text: string): Result<WireValue, WireError> {
    if IsBlank(text) then Err(Blank)
    else if Base64Url.Decode(text).None? then Err(InvalidBase64)
    else Ok(Binary(Base64Url.Decode(text).value))
  }

  function ParseLegacyBytes(value: Option<WireValue>): Result<string, WireError> {
    var bytes :- RequireBytes(value);
    Ok(Base64Url.Encode(bytes))
  }

  function KindName(kind: SchemaKind): string {
    match kind
    case WireMessage => "wire_message"
    case DocumentPayload => "document_payload"
    case SharedContract => "shared_contract"
  }

  function KindOf(name: string): Result<SchemaKind, WireError> {
    if name == "wire_message" then Ok(WireMessage)
    else if name == "document_payload" then Ok(DocumentPayload)
    else if name == "shared_contract" then Ok(SharedContract)
    else Err(UnsupportedValue(name))
  }

  function ContractName(contract: WireContract): string {
    match contract
    case CultNetSchemaV0 => "cultnet.schema.v0"
    case GameCultNetworkingV0 => "gamecult.networking.v0"
  }

  function ContractOf(name: string): Result<WireContract, WireError> {
    if name == "cultnet.schema.v0" then Ok(CultNetSchemaV0)
    else if name == "gamecult.networking.v0" then Ok(GameCultNetworkingV0)
    else Err(UnsupportedValue(name))
  }

  function KindNames(kinds: seq<SchemaKind>): seq<string> {
    seq(|kinds|, i requires 0 <= i < |kinds| => KindName(kinds[i]))
  }

  function ContractNames(contracts: seq<WireContract>): seq<string> {
    seq(|contracts|, i requires 0 <= i < |contracts| => ContractName(contracts[i]))
  }

  function KindsOf(names: seq<string>): Result<seq<SchemaKind>, WireError> {
    if names == [] then Ok([])
    else
      var first :- KindOf(names[0]);
      var rest :- KindsOf(names[1..]);
      Ok([first] + rest)
  }

  function ContractsOf(names: seq<string>): Result<seq<WireContract>, WireError> {
    if names == [] then Ok([])
    else
      var first :- ContractOf(names[0]);
      var rest :- ContractsOf(names[1..]);
      Ok([first] + rest)
  }

  function KindsOrNil(kinds: Option<seq<SchemaKind>>): WireValue {
    if kinds.Some? then Array(Strs(KindNames(kinds.value))) else Nil
  }

  function OptionalKinds(value: Option<WireValue>): Result<Option<seq<SchemaKind>>, WireError> {
    var names :- OptionalStrings(value);
    if names.None? then Ok(None)
    else
      var kinds :- KindsOf(names.value);
      Ok(Some(kinds))
  }

  function ParseWireContracts(value: Option<WireValue>): Result<seq<WireContract>, WireError> {
    var names :- OptionalStrings(value);
    if names.None? then Ok([]) else ContractsOf(names.value)
  }

  function EncodeDescriptor(d: SchemaDescriptor): WireValue {
    Map([
      (Str("schemaId"), Str(d.schemaId)),
      (Str("kind"), Str(KindName(d.kind))),
      (Str("schemaVersion"), OrNil(d.schemaVersion)),
      (Str("documentType"), OrNil(d.documentType)),
      (Str("title"), OrNil(d.title)),
      (Str("wireContracts"), Array(Strs(ContractNames(d.wireContracts)))),
      (Str("contentHash"), Str(d.contentHash)),
      (Str("schemaJson"), OrNil(d.schemaJson))
    ])
  }

  function ParseDescriptor(value: WireValue): Result<SchemaDescriptor, WireError> {
    var fields :- RequireObject(Some(value));
    var schemaId :- RequireString(Get(fields, "schemaId"));
    var kindName :- RequireString(Get(fields, "kind"));
    var schemaVersion :- OptionalString(Get(fields, "schemaVersion"));
    var documentType :- OptionalString(Get(fields, "documentType"));
    var title :- OptionalString(Get(fields, "title"));
    var wireContracts :- ParseWireContracts(Get(fields, "wireContracts"));
    var contentHash :- RequireString(Get(fields, "contentHash"));
    var schemaJson :- OptionalString(Get(fields, "schemaJson"));
    var kind :- KindOf(kindName);
    Ok(SchemaDescriptor(schemaId, kind, schemaVersion, documentType, title, wireContracts, contentHash, schemaJson))
  }

  function EncodeDescriptors(schemas: seq<SchemaDescriptor>): seq<WireValue> {
    seq(|schemas|, i requires 0 <= i < |schemas| => EncodeDescriptor(schemas[i]))
  }

  function ParseDescriptors(items: seq<WireValue>): Result<seq<SchemaDescriptor>, WireError> {
    if items == [] then Ok([])
    else
      var first :- ParseDescriptor(items[0]);
      var rest :- ParseDescriptors(items[1..]);
      Ok([first] + rest)
  }

  function Pair(tag: int, payload: seq<WireValue>): WireValue {
    Array([Integer(tag), Array(payload)])
  }

  function EncodeLegacy(m: Message): Result<WireValue, WireError> {
    match m
    case Login(nonce, auth, password) =>
      var n :- LegacyBytes(nonce);
      var a :- LegacyBytes(auth);
      var p :- LegacyBytes(password);
      Ok(Pair(0, [n, a, p]))
    case Register(nonce, email, password, name) =>
      var n :- LegacyBytes(nonce);
      var e :- LegacyBytes(email);
      var p :- LegacyBytes(password);
      var m :- LegacyBytes(name);
      Ok(Pair(1, [n, e, p, m]))
    case Verify(nonce, session) =>
      var n :- LegacyBytes(nonce);
      var s :- LegacyBytes(session);
      Ok(Pair(2, [n, s]))
    case LoginSuccess(nonce, session) =>
      var n :- LegacyBytes(nonce);
      var s :- LegacyBytes(session);
      Ok(Pair(3, [n, s]))
    case ErrorMessage(error) => Ok(Pair(4, [Str(error)]))
    case SampleChangeName(name) => Ok(Pair(5, [Str(name)]))
    case SampleChat(text) => Ok(Pair(6, [Str(text)]))
    case SchemaCatalogRequest(messageId, includeSchemaJson, schemaIds, kinds) =>
      Ok(Pair(7, [Str(messageId), Boolean(if includeSchemaJson.Some? then includeSchemaJson.value else false),
                  StringsOrNil(schemaIds), KindsOrNil(kinds)]))
    case SchemaCatalogResponse(messageId, schemas) =>
      Ok(Pair(8, [Str(messageId), Array(EncodeDescriptors(schemas))]))
    case _ => Err(NotInContract)
  }

  predicate FitsI64(n: int) {
    -0x8000_0000_0000_0000 <= n <= 0x7FFF_FFFF_FFFF_FFFF
  }

  function ParseLegacy(w: WireValue): Result<Message, WireError> {
    if !w.Array? || |w.items| != 2 then Err(NotAPair)
    else if !w.items[0].Integer? || !FitsI64(w.items[0].n) then Err(NotAnInteger)
    else if !w.items[1].Array? then Err(NotAnArray)
    else ParseTagged(w.items[0].n, w.items[1].items)
  }

  function ParseTagged(tag: int, payload: seq<WireValue>): Result<Message, WireError> {
    match tag
    case 0 =>
      var nonce :- ParseLegacyBytes(At(payload, 0));
      var auth :- ParseLegacyBytes(At(payload, 1));
      var password :- ParseLegacyBytes(At(payload, 2));
      Ok(Login(nonce, auth, password))
    case 1 =>
      var nonce :- ParseLegacyBytes(At(payload, 0));
      var email :- ParseLegacyBytes(At(payload, 1));
      var password :- ParseLegacyBytes(At(payload, 2));
      var name :- ParseLegacyBytes(At(payload, 3));
      Ok(Register(nonce, email, password, name))
    case 2 =>
      var nonce :- ParseLegacyBytes(At(payload, 0));
      var session :- ParseLegacyBytes(At(payload, 1));
      Ok(Verify(nonce, session))
    case 3 =>
      var nonce :- ParseLegacyBytes(At(payload, 0));
      var session :- ParseLegacyBytes(At(payload, 1));
      Ok(LoginSuccess(nonce, session))
    case 4 =>
      var error :- RequireString(At(payload, 0));
      Ok(ErrorMessage(error))
    case 5 =>
      var name :- RequireString(At(payload, 0));
      Ok(SampleChangeName(name))
    case 6 =>
      var text :- RequireString(At(payload, 0));
      Ok(SampleChat(text))
    case 7 =>
      var messageId :- RequireString(At(payload, 0));
      var includeSchemaJson :- RequireBool(At(payload, 1));
      var schemaIds :- OptionalStrings(At(payload, 2));
      var kinds :- OptionalKinds(At(payload, 3));
      Ok(SchemaCatalogRequest(messageId, Some(includeSchemaJson), schemaIds, kinds))
    case 8 =>
      var messageId :- RequireString(At(payload, 0));
      var items :- RequireArray(At(payload, 1));
      var schemas :- ParseDescriptors(items);
      Ok(SchemaCatalogResponse(messageId, schemas))
    case _ => Err(UnsupportedTag(tag))
  }

  /** An absent include-schema flag is sent as false. */
  function Settled(m: Message): Message {
    if m.SchemaCatalogRequest? && m.includeSchemaJson.None? then m.(includeSchemaJson := Some(false)) else m
  }

  lemma BytesReadBack(text: string)
    requires LegacyBytes(text).Ok?
    ensures ParseLegacyBytes(Some(LegacyBytes(text).value)) == Ok(text)
  {
    Base64Url.EncodeUndoesDecode(text);
  }

  lemma {:induction false} KindsReadBack(kinds: seq<SchemaKind>)
    ensures KindsOf(KindNames(kinds)) == Ok(kinds)
  {
    if kinds != [] {
      KindsReadBack(kinds[1..]);
      assert KindNames(kinds)[0] == KindName(kinds[0]) && KindNames(kinds)[1..] == KindNames(kinds[1..]);
      KindReadsBack(kinds[0]);
      hide KindName, KindOf;
      assert [kinds[0]] + kinds[1..] == kinds;
    }
  }

  lemma KindReadsBack(kind: SchemaKind)
    ensures KindOf(KindName(kind)) == Ok(kind)
  {
  }

  lemma ContractReadsBack(contract: WireContract)
    ensures ContractOf(ContractName(contract)) == Ok(contract)
  {
  }

  lemma {:induction false} ContractsReadBack(contracts: seq<WireContract>)
    ensures ContractsOf(ContractNames(contracts)) == Ok(contracts)
  {
    if contracts != [] {
      ContractsReadBack(contracts[1..]);
      assert ContractNames(contracts)[0] == ContractName(contracts[0]);
      assert ContractNames(contracts)[1..] == ContractNames(contracts[1..]);
      ContractReadsBack(contracts[0]);
      hide ContractName, ContractOf;
      assert [contracts[0]] + contracts[1..] == contracts;
    }
  }

  lemma OptionalKindsReadBack(kinds: Option<seq<SchemaKind>>)
    ensures OptionalKinds(Some(KindsOrNil(kinds))) == Ok(kinds)
  {
    if kinds.Some? {
      StringsReadBack(KindNames(kinds.value));
      KindsReadBack(kinds.value);
    }
    hide KindNames, KindsOf, Strs, RequireStrings;
  }

  lemma WireContractsReadBack(contracts: seq<WireContract>)
    ensures ParseWireContracts(Some(Array(Strs(ContractNames(contracts))))) == Ok(contracts)
  {
    StringsReadBack(ContractNames(contracts));
    ContractsReadBack(contracts);
    hide ContractNames, ContractsOf, Strs, RequireStrings;
  }

  const DESCRIPTOR_NAMES := ["schemaId", "kind", "schemaVersion", "documentType", "title", "wireContracts",
                              "contentHash", "schemaJson"]

  lemma DescriptorFields(d: SchemaDescriptor)
    ensures var entries := EncodeDescriptor(d).entries;
      && Get(entries, "schemaId") == Some(Str(d.schemaId))
      && Get(entries, "kind") == Some(Str(KindName(d.kind)))
      && Get(entries, "schemaVersion") == Some(OrNil(d.schemaVersion))
      && Get(entries, "documentType") == Some(OrNil(d.documentType))
      && Get(entries, "title") == Some(OrNil(d.title))
      && Get(entries, "wireContracts") == Some(Array(Strs(ContractNames(d.wireContracts))))
      && Get(entries, "contentHash") == Some(Str(d.contentHash))
      && Get(entries, "schemaJson") == Some(OrNil(d.schemaJson))
  {
    var entries := EncodeDescriptor(d).entries;
    assert Distinct(DESCRIPTOR_NAMES);
    assert Named(entries, DESCRIPTOR_NAMES);
    hide Get, OrNil, Strs, ContractNames, KindName, Distinct, Named;
    GetNamed(entries, DESCRIPTOR_NAMES, 0);
    GetNamed(entries, DESCRIPTOR_NAMES, 1);
    GetNamed(entries, DESCRIPTOR_NAMES, 2);
    GetNamed(entries, DESCRIPTOR_NAMES, 3);
    GetNamed(entries, DESCRIPTOR_NAMES, 4);
    GetNamed(entries, DESCRIPTOR_NAMES, 5);
    GetNamed(entries, DESCRIPTOR_NAMES, 6);
    GetNamed(entries, DESCRIPTOR_NAMES, 7);
  }

  lemma DescriptorReadsBack(d: SchemaDescriptor)
    ensures ParseDescriptor(EncodeDescriptor(d)) == Ok(d)
  {
    DescriptorFields(d);
    KindReadsBack(d.kind);
    WireContractsReadBack(d.wireContracts);
    OptionalStringReadsBack(d.schemaVersion);
    OptionalStringReadsBack(d.documentType);
    OptionalStringReadsBack(d.title);
    OptionalStringReadsBack(d.schemaJson);
    hide Get, OrNil, OptionalString, KindName, KindOf, ParseWireContracts, Strs, ContractNames;
  }

  lemma {:induction false} DescriptorsReadBack(schemas: seq<SchemaDescriptor>)
    ensures ParseDescriptors(EncodeDescriptors(schemas)) == Ok(schemas)
  {
    hide EncodeDescriptor, ParseDescriptor;
    if schemas != [] {
      var items := EncodeDescriptors(schemas);
      DescriptorReadsBack(schemas[0]);
      DescriptorsReadBack(schemas[1..]);
      assert items[0] == EncodeDescriptor(schemas[0]) && items[1..] == EncodeDescriptors(schemas[1..]);
      assert [schemas[0]] + schemas[1..] == schemas;
    }
  }

  lemma CredentialsReadBack(m: Message)
    requires EncodeLegacy(m).Ok? && (m.Login? || m.Register? || m.Verify? || m.LoginSuccess?)
    ensures ParseLegacy(EncodeLegacy(m).value) == Ok(m)
  {
    hide LegacyBytes, ParseLegacyBytes;
    match m
    case Login(nonce, auth, password) =>
      BytesReadBack(nonce);
      BytesReadBack(auth);
      BytesReadBack(password);
    case Register(nonce, email, password, name) =>
      BytesReadBack(nonce);
      BytesReadBack(email);
      BytesReadBack(password);
      BytesReadBack(name);
    case Verify(nonce, session) =>
      BytesReadBack(nonce);
      BytesReadBack(session);
    case LoginSuccess(nonce, session) =>
      BytesReadBack(nonce);
      BytesReadBack(session);
    case _ =>
  }

  lemma CatalogReadsBack(m: Message)
    requires EncodeLegacy(m).Ok? && (m.SchemaCatalogRequest? || m.SchemaCatalogResponse?)
    ensures ParseLegacy(EncodeLegacy(m).value) == Ok(Settled(m))
  {
    hide StringsOrNil, OptionalStrings, KindsOrNil, OptionalKinds, EncodeDescriptors, ParseDescriptors;
    match m
    case SchemaCatalogRequest(_, _, schemaIds, kinds) =>
      OptionalStringsReadBack(schemaIds);
      OptionalKindsReadBack(kinds);
    case SchemaCatalogResponse(_, schemas) => DescriptorsReadBack(schemas);
    case _ =>
  }

  /** Parsing undoes encoding for every legacy message the encoder accepts, up to an absent include-schema flag
      becoming false. */
  lemma LegacyMessagesReadBack(m: Message)
    requires EncodeLegacy(m).Ok?
    ensures ParseLegacy(EncodeLegacy(m).value) == Ok(Settled(m))
  {
    if m.Login? || m.Register? || m.Verify? || m.LoginSuccess? {
      CredentialsReadBack(m);
    } else if m.SchemaCatalogRequest? || m.SchemaCatalogResponse? {
      CatalogReadsBack(m);
    }
    hide LegacyBytes, ParseLegacyBytes, StringsOrNil, OptionalStrings, KindsOrNil, OptionalKinds, EncodeDescriptors,
      ParseDescriptors;
  }

  /** The text fields a legacy message sends as bytes. */
  function Credentials(m: Message): seq<string> {
    match m
    case Login(nonce, auth, password) => [nonce, auth, password]
    case Register(nonce, email, password, name) => [nonce, email, password, name]
    case Verify(nonce, session) => [nonce, session]
    case LoginSuccess(nonce, session) => [nonce, session]
    case _ => []
  }

  /** Canonical base64url that is not blank. */
  predicate Sendable(text: string) {
    !IsBlank(text) && Base64Url.Decode(text).Some?
  }

  predicate AllSendable(texts: seq<string>) {
    texts == [] || (Sendable(texts[0]) && AllSendable(texts[1..]))
  }

  lemma SendableIsAccepted(text: string)
    ensures LegacyBytes(text).Ok? <==> Sendable(text)
  {
  }

  lemma AllSendableOf(a: string, b: string, c: string, d: string)
    ensures AllSendable([a, b]) <==> Sendable(a) && Sendable(b)
    ensures AllSendable([a, b, c]) <==> Sendable(a) && Sendable(b) && Sendable(c)
    ensures AllSendable([a, b, c, d]) <==> Sendable(a) && Sendable(b) && Sendable(c) && Sendable(d)
  {
    AllSendableOfNone();
    hide Sendable, AllSendable;
    assert [d] == [d] + [] && [c, d] == [c] + [d] && [b, c, d] == [b] + [c, d] && [a, b, c, d] == [a] + [b, c, d];
    assert [c] == [c] + [] && [b, c] == [b] + [c] && [a, b, c] == [a] + [b, c];
    assert [b] == [b] + [] && [a, b] == [a] + [b];
    MoreSendable(d, []);
    MoreSendable(c, [d]);
    MoreSendable(b, [c, d]);
    MoreSendable(a, [b, c, d]);
    MoreSendable(c, []);
    MoreSendable(b, [c]);
    MoreSendable(a, [b, c]);
    MoreSendable(b, []);
    MoreSendable(a, [b]);
  }

  lemma MoreSendable(text: string, texts: seq<string>)
    ensures AllSendable([text] + texts) <==> Sendable(text) && AllSendable(texts)
  {
    assert ([text] + texts)[1..] == texts;
  }

  /** Exactly which messages the legacy contract can carry: not the raw and snapshot ones, and credentials only as
      canonical, non-blank base64url. */
  lemma LegacyContractCarries(m: Message)
    ensures EncodeLegacy(m).Ok? <==>
      !m.DocumentPutRaw? && !m.SnapshotRequest? && !m.SnapshotResponseRaw? && AllSendable(Credentials(m))
  {
    hide LegacyBytes, Sendable, AllSendable;
    AllSendableOfNone();
    match m
    case Login(nonce, auth, password) =>
      SendableIsAccepted(nonce);
      SendableIsAccepted(auth);
      SendableIsAccepted(password);
      AllSendableOf(nonce, auth, password, "");
    case Register(nonce, email, password, name) =>
      SendableIsAccepted(nonce);
      SendableIsAccepted(email);
      SendableIsAccepted(password);
      SendableIsAccepted(name);
      AllSendableOf(nonce, email, password, name);
    case Verify(nonce, session) =>
      SendableIsAccepted(nonce);
      SendableIsAccepted(session);
      AllSendableOf(nonce, session, "", "");
    case LoginSuccess(nonce, session) =>
      SendableIsAccepted(nonce);
      SendableIsAccepted(session);
      AllSendableOf(nonce, session, "", "");
    case _ =>
  }

  lemma AllSendableOfNone()
    ensures AllSendable([])
  {
  }

  // ---- Validation and the public mappings

  function NonEmpty(text: string): Result<(), WireError> {
    if IsBlank(text) then Err(Blank) else Ok(())
  }

  function OptionalNonEmpty(text: Option<string>): Result<(), WireError> {
    if text.Some? then NonEmpty(text.value) else Ok(())
  }

  function AllNonEmpty(texts: seq<string>): Result<(), WireError> {
    if texts == [] then Ok(())
    else
      var _ :- NonEmpty(texts[0]);
      AllNonEmpty(texts[1..])
  }

  function OptionalAllNonEmpty(texts: Option<seq<string>>): Result<(), WireError> {
    if texts.Some? then AllNonEmpty(texts.value) else Ok(())
  }

  function ValidateRawDocument(d: RawDocument): Result<(), WireError> {
    var _ :- NonEmpty(d.schemaId);
    var _ :- NonEmpty(d.recordKey);
    var _ :- NonEmpty(d.storedAt);
    if d.payload == [] then Err(EmptyPayload)
    else
      var _ :- OptionalNonEmpty(d.sourceRuntimeId);
      var _ :- OptionalNonEmpty(d.sourceAgentId);
      var _ :- OptionalNonEmpty(d.sourceRole);
      OptionalAllNonEmpty(d.tags)
  }

  function ValidateRawDocuments(docs: seq<RawDocument>): Result<(), WireError> {
    if docs == [] then Ok(())
    else
      var _ :- ValidateRawDocument(docs[0]);
      ValidateRawDocuments(docs[1..])
  }

  function ValidateDescriptor(d: SchemaDescriptor): Result<(), WireError> {
    var _ :- NonEmpty(d.schemaId);
    var _ :- OptionalNonEmpty(d.schemaVersion);
    var _ :- OptionalNonEmpty(d.documentType);
    var _ :- OptionalNonEmpty(d.title);
    var _ :- NonEmpty(d.contentHash);
    var _ :- OptionalNonEmpty(d.schemaJson);
    if d.wireContracts == [] then Err(NoWireContracts) else Ok(())
  }

  function ValidateDescriptors(schemas: seq<SchemaDescriptor>): Result<(), WireError> {
    if schemas == [] then Ok(())
    else
      var _ :- ValidateDescriptor(schemas[0]);
      ValidateDescriptors(schemas[1..])
  }

  function Validate(m: Message): Result<(), WireError> {
    match m
    case Login(nonce, auth, password) => AllNonEmpty([nonce, auth, password])
    case Register(nonce, email, password, name) => AllNonEmpty([nonce, email, password, name])
    case Verify(nonce, session) => AllNonEmpty([nonce, session])
    case LoginSuccess(nonce, session) => AllNonEmpty([nonce, session])
    case ErrorMessage(error) => NonEmpty(error)
    case SampleChangeName(name) => NonEmpty(name)
    case SampleChat(text) => NonEmpty(text)
    case DocumentPutRaw(messageId, document) =>
      var _ :- NonEmpty(messageId);
      ValidateRawDocument(document)
    case SnapshotRequest(messageId, schemaIds, recordKeys) =>
      var _ :- NonEmpty(messageId);
      var _ :- OptionalAllNonEmpty(schemaIds);
      OptionalAllNonEmpty(recordKeys)
    case SnapshotResponseRaw(messageId, documents) =>
      var _ :- NonEmpty(messageId);
      ValidateRawDocuments(documents)
    case SchemaCatalogRequest(messageId, _, schemaIds, _) =>
      var _ :- NonEmpty(messageId);
      OptionalAllNonEmpty(schemaIds)
    case SchemaCatalogResponse(messageId, schemas) =>
      var _ :- NonEmpty(messageId);
      ValidateDescriptors(schemas)
  }

  /** The schema version a value announces, if any: the first string under that name. */
  function AnnouncedVersion(entries: seq<(WireValue, WireValue)>): Option<string> {
    if entries == [] then None
    else if entries[0].0 == Str("schemaVersion") && entries[0].1.Str? then Some(entries[0].1.text)
    else AnnouncedVersion(entries[1..])
  }

  predicate AnnouncesRaw(w: WireValue) {
    && w.Map?
    && (|| AnnouncedVersion(w.entries) == Some(DOCUMENT_PUT_RAW)
        || AnnouncedVersion(w.entries) == Some(SNAPSHOT_RESPONSE_RAW))
  }

  /** encode_cultnet_message_for_wire. The JSON form of the other cultnet.schema.v0 messages is not modelled. */
  function EncodeForWire(m: Message, contract: WireContract): Result<WireValue, WireError> {
    var _ :- Validate(m);
    match contract
    case CultNetSchemaV0 => if m.DocumentPutRaw? || m.SnapshotResponseRaw? then EncodeRaw(m) else Err(NotARawMessage)
    case GameCultNetworkingV0 => EncodeLegacy(m)
  }

  /** parse_cultnet_message. */
  function ParseMessage(w: WireValue, contract: WireContract): Result<Message, WireError> {
    match contract
    case CultNetSchemaV0 =>
      if !AnnouncesRaw(w) then Err(NotARawMessage)
      else
        var m :- ParseRaw(w);
        var _ :- Validate(m);
        Ok(m)
    case GameCultNetworkingV0 => ParseLegacy(w)
  }

  lemma RawIsAnnounced(m: Message)
    requires EncodeRaw(m).Ok?
    ensures AnnouncesRaw(EncodeRaw(m).value)
  {
    hide EncodeRawDocument, EncodeRawDocuments;
  }

  /** The message mappings undo each other: whatever either contract's encoder accepts, validation included, parses
      back to the message itself, up to the include-schema flag of a legacy catalog request. */
  lemma MessagesReadBack(m: Message, contract: WireContract)
    requires EncodeForWire(m, contract).Ok?
    ensures ParseMessage(EncodeForWire(m, contract).value, contract)
      == Ok(if contract.GameCultNetworkingV0? then Settled(m) else m)
  {
    hide Validate, EncodeRaw, EncodeLegacy, ParseRaw, ParseLegacy, AnnouncesRaw;
    match contract
    case CultNetSchemaV0 =>
      RawIsAnnounced(m);
      RawMessagesReadBack(m);
    case GameCultNetworkingV0 => LegacyMessagesReadBack(m);
  }
}
