/** What the message mappings accept and write, spelled out: which messages are valid, and every name, tag and version
    on the wire as it stands there. */
module WireNames {
  import opened Prelude
  import opened Text
  import opened Messages
  import opened Contracts
  import opened WireForms

  // ---- Which messages are valid

  predicate Filled(text: string) {
    !IsBlank(text)
  }

  predicate FilledIfAny(text: Option<string>) {
    text.Some? ==> Filled(text.value)
  }

  predicate AllFilled(texts: seq<string>) {
    forall i :: 0 <= i < |texts| ==> Filled(texts[i])
  }

  predicate AllFilledIfAny(texts: Option<seq<string>>) {
    texts.Some? ==> AllFilled(texts.value)
  }

  predicate ValidDocument(d: RawDocument) {
    && Filled(d.schemaId) && Filled(d.recordKey) && Filled(d.storedAt) && d.payload != []
    && FilledIfAny(d.sourceRuntimeId) && FilledIfAny(d.sourceAgentId) && FilledIfAny(d.sourceRole)
    && AllFilledIfAny(d.tags)
  }

  predicate ValidDocuments(docs: seq<RawDocument>) {
    forall i :: 0 <= i < |docs| ==> ValidDocument(docs[i])
  }

  predicate ValidDescriptor(d: SchemaDescriptor) {
    && Filled(d.schemaId) && Filled(d.contentHash) && d.wireContracts != []
    && FilledIfAny(d.schemaVersion) && FilledIfAny(d.documentType) && FilledIfAny(d.title) && FilledIfAny(d.schemaJson)
  }

  predicate ValidDescriptors(schemas: seq<SchemaDescriptor>) {
    forall i :: 0 <= i < |schemas| ==> ValidDescriptor(schemas[i])
  }

  /** No text of the message is blank, no payload and no list of contracts empty. */
  predicate ValidMessage(m: Message) {
    match m
    case Login(nonce, auth, password) => Filled(nonce) && Filled(auth) && Filled(password)
    case Register(nonce, email, password, name) => Filled(nonce) && Filled(email) && Filled(password) && Filled(name)
    case Verify(nonce, session) => Filled(nonce) && Filled(session)
    case LoginSuccess(nonce, session) => Filled(nonce) && Filled(session)
    case ErrorMessage(error) => Filled(error)
    case SampleChangeName(name) => Filled(name)
    case SampleChat(text) => Filled(text)
    case DocumentPutRaw(messageId, document) => Filled(messageId) && ValidDocument(document)
    case SnapshotRequest(messageId, schemaIds, recordKeys) =>
      Filled(messageId) && AllFilledIfAny(schemaIds) && AllFilledIfAny(recordKeys)
    case SnapshotResponseRaw(messageId, documents) => Filled(messageId) && ValidDocuments(documents)
    case SchemaCatalogRequest(messageId, _, schemaIds, _) => Filled(messageId) && AllFilledIfAny(schemaIds)
    case SchemaCatalogResponse(messageId, schemas) => Filled(messageId) && ValidDescriptors(schemas)
  }

  lemma AllFilledExactly(texts: seq<string>)
    ensures AllNonEmpty(texts).Ok? <==> AllFilled(texts)
  {
    AllNonEmptyOf(texts);
    hide IsBlank, AllNonEmpty;
  }

  lemma IfAnyExactly(texts: Option<seq<string>>)
    ensures OptionalAllNonEmpty(texts).Ok? <==> AllFilledIfAny(texts)
  {
    if texts.Some? { AllFilledExactly(texts.value); }
    hide AllNonEmpty, AllFilled;
  }

  lemma ValidDocumentExactly(d: RawDocument)
    ensures ValidateRawDocument(d).Ok? <==> ValidDocument(d)
  {
    hide IsBlank, OptionalAllNonEmpty, AllFilledIfAny;
    IfAnyExactly(d.tags);
  }

  lemma {:induction false} ValidDocumentsExactly(docs: seq<RawDocument>)
    ensures ValidateRawDocuments(docs).Ok? <==> ValidDocuments(docs)
  {
    hide ValidateRawDocument, ValidDocument;
    if docs != [] {
      ValidDocumentExactly(docs[0]);
      ValidDocumentsExactly(docs[1..]);
      assert docs == [docs[0]] + docs[1..];
    }
  }

  lemma {:induction false} ValidDescriptorsExactly(schemas: seq<SchemaDescriptor>)
    ensures ValidateDescriptors(schemas).Ok? <==> ValidDescriptors(schemas)
  {
    hide ValidateDescriptor, ValidDescriptor;
    if schemas != [] {
      ValidDescriptorExactly(schemas[0]);
      ValidDescriptorsExactly(schemas[1..]);
      assert schemas == [schemas[0]] + schemas[1..];
    }
  }

  lemma ValidDescriptorExactly(d: SchemaDescriptor)
    ensures ValidateDescriptor(d).Ok? <==> ValidDescriptor(d)
  {
    hide IsBlank;
  }

  /** What is wrong with a document that is not valid: the first of these. */
  lemma FirstInvalid(d: RawDocument, schema: SchemaDescriptor)
    ensures ValidateRawDocument(d) == Err(EmptyPayload) <==>
      Filled(d.schemaId) && Filled(d.recordKey) && Filled(d.storedAt) && d.payload == []
    ensures ValidateRawDocument(d).Err? && ValidateRawDocument(d) != Err(EmptyPayload) ==>
      ValidateRawDocument(d) == Err(Blank)
    ensures ValidateDescriptor(schema) == Err(NoWireContracts) <==>
      ValidDescriptor(schema.(wireContracts := [CultNetSchemaV0])) && schema.wireContracts == []
    ensures ValidateDescriptor(schema).Err? && ValidateDescriptor(schema) != Err(NoWireContracts) ==>
      ValidateDescriptor(schema) == Err(Blank)
  {
    hide IsBlank;
    if d.tags.Some? { FirstBlank(d.tags.value); }
  }

  lemma {:induction false} FirstBlank(texts: seq<string>)
    ensures AllNonEmpty(texts).Err? ==> AllNonEmpty(texts) == Err(Blank)
  {
    if texts != [] { FirstBlank(texts[1..]); }
  }

  /** A message passes validation exactly if it is valid. */
  lemma ValidatesExactly(m: Message)
    ensures Validate(m).Ok? <==> ValidMessage(m)
  {
    hide IsBlank, AllNonEmpty, AllFilled, ValidateRawDocument, ValidDocument, ValidateRawDocuments, ValidDocuments,
      ValidateDescriptors, ValidDescriptors, OptionalAllNonEmpty, AllFilledIfAny;
    match m
    case Login(nonce, auth, password) => TextsFilled([nonce, auth, password]);
    case Register(nonce, email, password, name) => TextsFilled([nonce, email, password, name]);
    case Verify(nonce, session) => TextsFilled([nonce, session]);
    case LoginSuccess(nonce, session) => TextsFilled([nonce, session]);
    case DocumentPutRaw(_, document) => ValidDocumentExactly(document);
    case SnapshotRequest(_, schemaIds, recordKeys) => IfAnyExactly(schemaIds); IfAnyExactly(recordKeys);
    case SnapshotResponseRaw(_, documents) => ValidDocumentsExactly(documents);
    case SchemaCatalogRequest(_, _, schemaIds, _) => IfAnyExactly(schemaIds);
    case SchemaCatalogResponse(_, schemas) => ValidDescriptorsExactly(schemas);
    case _ =>
  }

  lemma TextsFilled(texts: seq<string>)
    requires 2 <= |texts| <= 4
    ensures AllNonEmpty(texts).Ok? <==>
      && Filled(texts[0]) && Filled(texts[1])
      && (|texts| > 2 ==> Filled(texts[2])) && (|texts| > 3 ==> Filled(texts[3]))
  {
    hide IsBlank, AllNonEmpty;
    AllFilledExactly(texts);
  }

  /** Which messages each contract's encoder accepts: valid ones of its own kinds, and for the legacy contract with
      credentials it can send. */
  lemma EncodesExactly(m: Message)
    ensures EncodeForWire(m, CultNetSchemaV0).Ok? <==> ValidMessage(m) && (m.DocumentPutRaw? || m.SnapshotResponseRaw?)
    ensures EncodeForWire(m, GameCultNetworkingV0).Ok? <==>
      && ValidMessage(m) && AllSendable(Credentials(m))
      && !m.DocumentPutRaw? && !m.SnapshotRequest? && !m.SnapshotResponseRaw?
  {
    hide Validate, ValidMessage, EncodeLegacy, AllSendable, EncodeRawDocument, EncodeRawDocuments;
    ValidatesExactly(m);
    LegacyContractCarries(m);
  }

  // ---- What stands on the wire

  /** What a reader finds under each name of a raw put. */
  lemma RawPutOnTheWire(messageId: string, d: RawDocument)
    ensures var w := EncodeRaw(DocumentPutRaw(messageId, d));
      && w.Ok? && w.value.Map? && |w.value.entries| == 3
      && Get(w.value.entries, "schemaVersion") == Some(Str("cultnet.document_put_raw.v0"))
      && Get(w.value.entries, "messageId") == Some(Str(messageId))
      && Get(w.value.entries, "document") == Some(EncodeRawDocument(d))
  {
    RawEnvelope(DocumentPutRaw(messageId, d), ["schemaVersion", "messageId", "document"]);
    hide Get, EncodeRawDocument;
  }

  lemma RawSnapshotOnTheWire(messageId: string, docs: seq<RawDocument>)
    ensures var w := EncodeRaw(SnapshotResponseRaw(messageId, docs));
      && w.Ok? && w.value.Map? && |w.value.entries| == 3
      && Get(w.value.entries, "schemaVersion") == Some(Str("cultnet.snapshot_response_raw.v0"))
      && Get(w.value.entries, "messageId") == Some(Str(messageId))
      && Get(w.value.entries, "documents") == Some(Array(EncodeRawDocuments(docs)))
  {
    RawEnvelope(SnapshotResponseRaw(messageId, docs), ["schemaVersion", "messageId", "documents"]);
    hide Get, EncodeRawDocuments;
  }

  lemma NamesOnTheWire()
    ensures KindName(WireMessage) == "wire_message" && KindName(DocumentPayload) == "document_payload"
    ensures KindName(SharedContract) == "shared_contract"
    ensures ContractName(CultNetSchemaV0) == "cultnet.schema.v0"
    ensures ContractName(GameCultNetworkingV0) == "gamecult.networking.v0"
  {
  }

  /** The union tag of a legacy message. */
  function TagOf(m: Message): int {
    match m
    case Login(_, _, _) => 0
    case Register(_, _, _, _) => 1
    case Verify(_, _) => 2
    case LoginSuccess(_, _) => 3
    case ErrorMessage(_) => 4
    case SampleChangeName(_) => 5
    case SampleChat(_) => 6
    case SchemaCatalogRequest(_, _, _, _) => 7
    case SchemaCatalogResponse(_, _) => 8
    case _ => -1
  }

  /** The value is the bytes whose base64url text this is. */
  predicate IsBytesOf(v: WireValue, text: string) {
    v.Binary? && Base64Url.Encode(v.bytes) == text
  }

  /** The fields of a legacy message, in their places. */
  predicate IsPayloadOf(p: seq<WireValue>, m: Message) {
    match m
    case Login(nonce, auth, password) =>
      |p| == 3 && IsBytesOf(p[0], nonce) && IsBytesOf(p[1], auth) && IsBytesOf(p[2], password)
    case Register(nonce, email, password, name) =>
      |p| == 4 && IsBytesOf(p[0], nonce) && IsBytesOf(p[1], email) && IsBytesOf(p[2], password) && IsBytesOf(p[3], name)
    case Verify(nonce, session) => |p| == 2 && IsBytesOf(p[0], nonce) && IsBytesOf(p[1], session)
    case LoginSuccess(nonce, session) => |p| == 2 && IsBytesOf(p[0], nonce) && IsBytesOf(p[1], session)
    case ErrorMessage(error) => p == [Str(error)]
    case SampleChangeName(name) => p == [Str(name)]
    case SampleChat(text) => p == [Str(text)]
    case SchemaCatalogRequest(messageId, withJson, schemaIds, kinds) =>
      && |p| == 4 && p[0] == Str(messageId) && p[1] == Boolean(withJson == Some(true))
      && (schemaIds.None? ==> p[2] == Nil) && (schemaIds.Some? ==> p[2] == Array(Strs(schemaIds.value)))
      && (kinds.None? ==> p[3] == Nil) && (kinds.Some? ==> p[3] == Array(Strs(KindNames(kinds.value))))
    case SchemaCatalogResponse(messageId, schemas) =>
      |p| == 2 && p[0] == Str(messageId) && p[1] == Array(EncodeDescriptors(schemas))
    case _ => false
  }

  lemma SentBytes(text: string)
    requires LegacyBytes(text).Ok?
    ensures IsBytesOf(LegacyBytes(text).value, text)
  {
    Base64Url.EncodeUndoesDecode(text);
  }

  /** A legacy message on the wire: its tag, and its fields in their places. */
  lemma LegacyOnTheWire(m: Message)
    requires EncodeLegacy(m).Ok?
    ensures var w := EncodeLegacy(m).value;
      && w.Array? && |w.items| == 2 && w.items[0] == Integer(TagOf(m)) && w.items[1].Array?
      && IsPayloadOf(w.items[1].items, m)
  {
    hide LegacyBytes, IsBytesOf, Strs, KindNames, EncodeDescriptors;
    match m
    case Login(nonce, auth, password) => SentBytes(nonce); SentBytes(auth); SentBytes(password);
    case Register(nonce, email, password, name) =>
      SentBytes(nonce);
      SentBytes(email);
      SentBytes(password);
      SentBytes(name);
    case Verify(nonce, session) => SentBytes(nonce); SentBytes(session);
    case LoginSuccess(nonce, session) => SentBytes(nonce); SentBytes(session);
    case _ =>
  }
}
