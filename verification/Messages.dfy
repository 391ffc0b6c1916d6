/** The CultNet messages whose wire mappings and exchanges are modelled. */
module Messages {
  import opened Prelude

  datatype PayloadEncoding = Messagepack

  datatype RawDocument = RawDocument(
    schemaId: string,
    recordKey: string,
    storedAt: string,
    payloadEncoding: PayloadEncoding,
    payload: Bytes,
    sourceRuntimeId: Option<string>,
    sourceAgentId: Option<string>,
    sourceRole: Option<string>,
    tags: Option<seq<string>>)

  datatype SchemaKind = WireMessage | DocumentPayload | SharedContract

  datatype WireContract = CultNetSchemaV0 | GameCultNetworkingV0

  datatype SchemaDescriptor = SchemaDescriptor(
    schemaId: string,
    kind: SchemaKind,
    schemaVersion: Option<string>,
    documentType: Option<string>,
    title: Option<string>,
    wireContracts: seq<WireContract>,
    contentHash: string,
    schemaJson: Option<string>)

  datatype Message =
    | Login(nonce: string, auth: string, password: string)
    | Register(nonce: string, email: string, password: string, name: string)
    | Verify(nonce: string, session: string)
    | LoginSuccess(nonce: string, session: string)
    | ErrorMessage(error: string)
    | SampleChangeName(name: string)
    | SampleChat(text: string)
    | DocumentPutRaw(messageId: string, document: RawDocument)
    | SnapshotRequest(messageId: string, schemaIds: Option<seq<string>>, recordKeys: Option<seq<string>>)
    | SnapshotResponseRaw(messageId: string, documents: seq<RawDocument>)
    | SchemaCatalogRequest(messageId: string, includeSchemaJson: Option<bool>, schemaIds: Option<seq<string>>,
                           kinds: Option<seq<SchemaKind>>)
    | SchemaCatalogResponse(messageId: string, schemas: seq<SchemaDescriptor>)
}
