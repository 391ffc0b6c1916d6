/** Which wire values an encoder writes. Parsing is more liberal: it takes fields in any order among others, absent for
    null, strings for bytes, and blank legacy fields. Encoding a parsed value gives it back exactly if it has the
    form. */
module WireForms {
  import opened Prelude
  import opened Text
  import opened Messages
  import opened Contracts

  // ---- The form of what is written

  predicate IsText(v: WireValue) {
    v.Str? && !IsBlank(v.text)
  }

  predicate IsTextOrNil(v: WireValue) {
    v.Nil? || IsText(v)
  }

  predicate AllTexts(items: seq<WireValue>) {
    forall i :: 0 <= i < |items| ==> IsText(items[i])
  }

  predicate AreTextsOrNil(v: WireValue) {
    v.Nil? || (v.Array? && AllTexts(v.items))
  }

  predicate IsCredential(v: WireValue) {
    v.Binary? && v.bytes != []
  }

  predicate AllCredentials(items: seq<WireValue>) {
    forall i :: 0 <= i < |items| ==> IsCredential(items[i])
  }

  /** All nine fields in order, and the payload as bytes. */
  ghost predicate RawDocumentForm(v: WireValue) {
    v.Map? && Named(v.entries, RAW_NAMES) && v.entries[4].1.Binary?
  }

  ghost predicate RawDocumentForms(items: seq<WireValue>) {
    forall i :: 0 <= i < |items| ==> RawDocumentForm(items[i])
  }

  const PUT_NAMES := ["schemaVersion", "messageId", "document"]

  const SNAPSHOT_NAMES := ["schemaVersion", "messageId", "documents"]

  ghost predicate PutForm(w: WireValue) {
    && w.Map? && Named(w.entries, PUT_NAMES)
    && w.entries[0].1 == Str(DOCUMENT_PUT_RAW) && RawDocumentForm(w.entries[2].1)
  }

  ghost predicate SnapshotForm(w: WireValue) {
    && w.Map? && Named(w.entries, SNAPSHOT_NAMES)
    && w.entries[0].1 == Str(SNAPSHOT_RESPONSE_RAW)
    && w.entries[2].1.Array? && RawDocumentForms(w.entries[2].1.items)
  }

  /** All eight fields in order, the contracts a list that is not empty, and no text blank. */
  ghost predicate DescriptorForm(v: WireValue) {
    && v.Map? && Named(v.entries, DESCRIPTOR_NAMES)
    && IsText(v.entries[0].1) && IsText(v.entries[6].1)
    && IsTextOrNil(v.entries[2].1) && IsTextOrNil(v.entries[3].1) && IsTextOrNil(v.entries[4].1)
    && IsTextOrNil(v.entries[7].1)
    && v.entries[5].1.Array? && v.entries[5].1.items != []
  }

  ghost predicate DescriptorForms(items: seq<WireValue>) {
    forall i :: 0 <= i < |items| ==> DescriptorForm(items[i])
  }

  /** No field too many or too few, credentials as bytes, and nothing blank that must not be. */
  ghost predicate LegacyForm(tag: int, payload: seq<WireValue>) {
    match tag
    case 0 => |payload| == 3 && AllCredentials(payload)
    case 1 => |payload| == 4 && AllCredentials(payload)
    case 2 => |payload| == 2 && AllCredentials(payload)
    case 3 => |payload| == 2 && AllCredentials(payload)
    case 7 => |payload| == 4 && IsText(payload[0]) && AreTextsOrNil(payload[2])
    case 8 => |payload| == 2 && IsText(payload[0]) && payload[1].Array? && DescriptorForms(payload[1].items)
    case _ => |payload| == 1 && IsText(payload[0])
  }

  ghost predicate HasForm(w: WireValue, contract: WireContract) {
    match contract
    case CultNetSchemaV0 => PutForm(w) || SnapshotForm(w)
    case GameCultNetworkingV0 =>
      && w.Array? && |w.items| == 2 && w.items[0].Integer? && w.items[1].Array?
      && LegacyForm(w.items[0].n, w.items[1].items)
  }

  // ---- Strings and lists of them

  lemma OptionalRewritten(v: WireValue)
    requires OptionalString(Some(v)).Ok?
    ensures var text := OptionalString(Some(v)).value;
      OrNil(text) == v && (OptionalNonEmpty(text).Ok? <==> IsTextOrNil(v))
  {
  }

  lemma {:induction false} StringsRewritten(items: seq<WireValue>)
    requires RequireStrings(items).Ok?
    ensures Strs(RequireStrings(items).value) == items
    ensures AllNonEmpty(RequireStrings(items).value).Ok? <==> AllTexts(items)
  {
    if items != [] {
      var values := RequireStrings(items).value;
      StringsRewritten(items[1..]);
      assert values[1..] == RequireStrings(items[1..]).value;
      assert Strs(values) == [Str(values[0])] + Strs(values[1..]);
      assert items == [items[0]] + items[1..];
      assert AllTexts(items) <==> IsText(items[0]) && AllTexts(items[1..]);
    }
  }

  lemma TextsRewritten(v: WireValue)
    requires OptionalStrings(Some(v)).Ok?
    ensures var values := OptionalStrings(Some(v)).value;
      StringsOrNil(values) == v && (OptionalAllNonEmpty(values).Ok? <==> AreTextsOrNil(v))
  {
    if v.Array? { StringsRewritten(v.items); }
    hide Strs, RequireStrings, AllNonEmpty;
  }

  lemma KindRewritten(name: string)
    requires KindOf(name).Ok?
    ensures KindName(KindOf(name).value) == name
  {
  }

  lemma ContractRewritten(name: string)
    requires ContractOf(name).Ok?
    ensures ContractName(ContractOf(name).value) == name
  {
  }

  lemma {:induction false} KindsRewritten(names: seq<string>)
    requires KindsOf(names).Ok?
    ensures KindNames(KindsOf(names).value) == names
  {
    hide KindOf, KindName;
    if names != [] {
      var kinds := KindsOf(names).value;
      KindsRewritten(names[1..]);
      KindRewritten(names[0]);
      assert kinds[1..] == KindsOf(names[1..]).value;
      assert KindNames(kinds) == [KindName(kinds[0])] + KindNames(kinds[1..]);
      assert names == [names[0]] + names[1..];
    }
  }

  lemma {:induction false} ContractsRewritten(names: seq<string>)
    requires ContractsOf(names).Ok?
    ensures ContractNames(ContractsOf(names).value) == names
  {
    hide ContractOf, ContractName;
    if names != [] {
      var contracts := ContractsOf(names).value;
      ContractsRewritten(names[1..]);
      ContractRewritten(names[0]);
      assert contracts[1..] == ContractsOf(names[1..]).value;
      assert ContractNames(contracts) == [ContractName(contracts[0])] + ContractNames(contracts[1..]);
      assert names == [names[0]] + names[1..];
    }
  }

  lemma OptionalKindsRewritten(v: WireValue)
    requires OptionalKinds(Some(v)).Ok?
    ensures KindsOrNil(OptionalKinds(Some(v)).value) == v
  {
    TextsRewritten(v);
    var names := OptionalStrings(Some(v)).value;
    if names.Some? { KindsRewritten(names.value); }
    hide KindsOf, KindNames, Strs, OptionalStrings;
  }

  lemma WireContractsRewritten(v: WireValue)
    requires ParseWireContracts(Some(v)).Ok?
    ensures var contracts := ParseWireContracts(Some(v)).value;
      Array(Strs(ContractNames(contracts))) == v && contracts != [] <==> v.Array? && v.items != []
  {
    TextsRewritten(v);
    var names := OptionalStrings(Some(v)).value;
    if names.Some? {
      ContractsRewritten(names.value);
      assert |ContractNames(ParseWireContracts(Some(v)).value)| == |names.value| == |v.items|;
    }
    hide ContractsOf, OptionalStrings;
  }

  // ---- Raw messages

  lemma RawDocumentHasForm(d: RawDocument)
    ensures RawDocumentForm(EncodeRawDocument(d))
  {
  }

  /** Encoding a parsed raw document gives it back exactly if it has the form. */
  lemma RawDocumentRewritten(v: WireValue)
    requires ParseRawDocument(Some(v)).Ok?
    ensures EncodeRawDocument(ParseRawDocument(Some(v)).value) == v <==> RawDocumentForm(v)
  {
    hide ParseRawDocument, EncodeRawDocument, RawDocumentForm;
    RawDocumentHasForm(ParseRawDocument(Some(v)).value);
    if RawDocumentForm(v) { RawDocumentOfForm(v); }
  }

  lemma RawDocumentOfForm(v: WireValue)
    requires ParseRawDocument(Some(v)).Ok? && RawDocumentForm(v)
    ensures EncodeRawDocument(ParseRawDocument(Some(v)).value) == v
  {
    var e := v.entries;
    RawFieldsOf(v);
    hide Get, Named, RAW_NAMES, OrNil, StringsOrNil, OptionalString, OptionalStrings;
    RawDocumentParts(v);
    OptionalRewritten(e[5].1);
    OptionalRewritten(e[6].1);
    OptionalRewritten(e[7].1);
    TextsRewritten(e[8].1);
    hide ParseRawDocument, EncodeRawDocument, IsTextOrNil, AreTextsOrNil, OptionalNonEmpty, OptionalAllNonEmpty;
    RawDocumentOfEntries(e, ParseRawDocument(Some(v)).value);
  }

  lemma RawDocumentOfEntries(e: seq<(WireValue, WireValue)>, d: RawDocument)
    requires |e| == 9
    requires e[0] == (Str("schemaId"), Str(d.schemaId)) && e[1] == (Str("recordKey"), Str(d.recordKey))
    requires e[2] == (Str("storedAt"), Str(d.storedAt)) && e[3] == (Str("payloadEncoding"), Str("messagepack"))
    requires e[4] == (Str("payload"), Binary(d.payload)) && e[5] == (Str("sourceRuntimeId"), OrNil(d.sourceRuntimeId))
    requires e[6] == (Str("sourceAgentId"), OrNil(d.sourceAgentId)) && e[7] == (Str("sourceRole"), OrNil(d.sourceRole))
    requires e[8] == (Str("tags"), StringsOrNil(d.tags))
    ensures EncodeRawDocument(d) == Map(e)
  {
    hide OrNil, StringsOrNil;
    assert EncodeRawDocument(d).entries == e;
  }

  /** What a raw document is made of. */
  lemma RawDocumentParts(v: WireValue)
    requires ParseRawDocument(Some(v)).Ok?
    ensures v.Map?
    ensures var e, d := v.entries, ParseRawDocument(Some(v)).value;
      && Get(e, "schemaId") == Some(Str(d.schemaId)) && Get(e, "recordKey") == Some(Str(d.recordKey))
      && Get(e, "storedAt") == Some(Str(d.storedAt)) && Get(e, "payloadEncoding") == Some(Str("messagepack"))
      && RequireBytes(Get(e, "payload")) == Ok(d.payload)
      && OptionalString(Get(e, "sourceRuntimeId")) == Ok(d.sourceRuntimeId)
      && OptionalString(Get(e, "sourceAgentId")) == Ok(d.sourceAgentId)
      && OptionalString(Get(e, "sourceRole")) == Ok(d.sourceRole)
      && OptionalStrings(Get(e, "tags")) == Ok(d.tags)
  {
    hide Get, OptionalString, OptionalStrings;
  }

  lemma RawFieldsOf(v: WireValue)
    requires v.Map? && Named(v.entries, RAW_NAMES)
    ensures var e := v.entries;
      && |e| == 9
      && e[0].0 == Str("schemaId") && Get(e, "schemaId") == Some(e[0].1)
      && e[1].0 == Str("recordKey") && Get(e, "recordKey") == Some(e[1].1)
      && e[2].0 == Str("storedAt") && Get(e, "storedAt") == Some(e[2].1)
      && e[3].0 == Str("payloadEncoding") && Get(e, "payloadEncoding") == Some(e[3].1)
      && e[4].0 == Str("payload") && Get(e, "payload") == Some(e[4].1)
      && e[5].0 == Str("sourceRuntimeId") && Get(e, "sourceRuntimeId") == Some(e[5].1)
      && e[6].0 == Str("sourceAgentId") && Get(e, "sourceAgentId") == Some(e[6].1)
      && e[7].0 == Str("sourceRole") && Get(e, "sourceRole") == Some(e[7].1)
      && e[8].0 == Str("tags") && Get(e, "tags") == Some(e[8].1)
  {
    RawNamesAreDistinct();
    var e := v.entries;
    assert forall i :: 0 <= i < 9 ==> e[i].0 == Str(RAW_NAMES[i]);
    hide Get, Distinct, Named;
    GetNamed(e, RAW_NAMES, 0);
    GetNamed(e, RAW_NAMES, 1);
    GetNamed(e, RAW_NAMES, 2);
    GetNamed(e, RAW_NAMES, 3);
    GetNamed(e, RAW_NAMES, 4);
    GetNamed(e, RAW_NAMES, 5);
    GetNamed(e, RAW_NAMES, 6);
    GetNamed(e, RAW_NAMES, 7);
    GetNamed(e, RAW_NAMES, 8);
  }

  lemma {:induction false} RawDocumentsRewritten(items: seq<WireValue>)
    requires ParseRawDocuments(items).Ok?
    ensures EncodeRawDocuments(ParseRawDocuments(items).value) == items <==> RawDocumentForms(items)
  {
    hide ParseRawDocument, EncodeRawDocument, RawDocumentForm;
    if items != [] {
      var docs := ParseRawDocuments(items).value;
      RawDocumentRewritten(items[0]);
      RawDocumentsRewritten(items[1..]);
      assert docs[1..] == ParseRawDocuments(items[1..]).value;
      assert EncodeRawDocuments(docs) == [EncodeRawDocument(docs[0])] + EncodeRawDocuments(docs[1..]);
      assert items == [items[0]] + items[1..];
      assert RawDocumentForms(items) <==> RawDocumentForm(items[0]) && RawDocumentForms(items[1..]);
    }
  }

  lemma EnvelopeOf(entries: seq<(WireValue, WireValue)>, names: seq<string>)
    requires Named(entries, names) && Distinct(names) && |names| == 3
    ensures |entries| == 3
    ensures entries[0].0 == Str(names[0]) && Get(entries, names[0]) == Some(entries[0].1)
    ensures entries[1].0 == Str(names[1]) && Get(entries, names[1]) == Some(entries[1].1)
    ensures entries[2].0 == Str(names[2]) && Get(entries, names[2]) == Some(entries[2].1)
  {
    GetNamed(entries, names, 0);
    GetNamed(entries, names, 1);
    GetNamed(entries, names, 2);
  }

  lemma DocumentIsThere(value: Option<WireValue>)
    requires ParseRawDocument(value).Ok?
    ensures value.Some?
  {
  }

  lemma PutRewritten(w: WireValue)
    requires ParseRaw(w).Ok? && ParseRaw(w).value.DocumentPutRaw?
    ensures EncodeRaw(ParseRaw(w).value) == Ok(w) <==> PutForm(w)
  {
    hide ParseRawDocument, EncodeRawDocument, ParseRawDocuments, RawDocumentForm;
    var d := ParseRaw(w).value.document;
    assert Distinct(PUT_NAMES);
    if Named(w.entries, PUT_NAMES) { EnvelopeOf(w.entries, PUT_NAMES); }
    DocumentIsThere(Get(w.entries, "document"));
    RawDocumentRewritten(Get(w.entries, "document").value);
    RawDocumentHasForm(d);
    var written := EncodeRaw(ParseRaw(w).value).value.entries;
    assert Named(written, PUT_NAMES);
    if PutForm(w) { assert w == Map(w.entries) && w.entries == written; }
  }

  lemma SnapshotRewritten(w: WireValue)
    requires ParseRaw(w).Ok? && ParseRaw(w).value.SnapshotResponseRaw?
    ensures EncodeRaw(ParseRaw(w).value) == Ok(w) <==> SnapshotForm(w)
  {
    hide ParseRawDocument, ParseRawDocuments, EncodeRawDocuments, RawDocumentForms;
    var docs := ParseRaw(w).value.documents;
    assert Distinct(SNAPSHOT_NAMES);
    if Named(w.entries, SNAPSHOT_NAMES) { EnvelopeOf(w.entries, SNAPSHOT_NAMES); }
    RawDocumentsRewritten(Get(w.entries, "documents").value.items);
    RawDocumentsHaveForm(docs);
    var written := EncodeRaw(ParseRaw(w).value).value.entries;
    assert Named(written, SNAPSHOT_NAMES);
    if SnapshotForm(w) { assert w == Map(w.entries) && w.entries == written; }
  }

  lemma RawDocumentsHaveForm(docs: seq<RawDocument>)
    ensures RawDocumentForms(EncodeRawDocuments(docs))
  {
    hide EncodeRawDocument, RawDocumentForm;
    forall i | 0 <= i < |docs| ensures RawDocumentForm(EncodeRawDocuments(docs)[i]) { RawDocumentHasForm(docs[i]); }
  }

  /** Encoding a parsed raw message gives the value back exactly if it has the fields the encoder writes, in order. */
  lemma RawMessageRewritten(w: WireValue)
    requires ParseRaw(w).Ok?
    ensures EncodeRaw(ParseRaw(w).value) == Ok(w) <==> PutForm(w) || SnapshotForm(w)
  {
    RawVersion(w);
    if ParseRaw(w).value.DocumentPutRaw? { PutRewritten(w); } else { SnapshotRewritten(w); }
    if Named(w.entries, PUT_NAMES) { GetAt(w.entries, "schemaVersion", 0); }
    if Named(w.entries, SNAPSHOT_NAMES) { GetAt(w.entries, "schemaVersion", 0); }
    hide ParseRaw, EncodeRaw, RawDocumentForm, RawDocumentForms, Get;
  }

  lemma RawVersion(w: WireValue)
    requires ParseRaw(w).Ok?
    ensures w.Map?
    ensures ParseRaw(w).value.DocumentPutRaw? ==> Get(w.entries, "schemaVersion") == Some(Str(DOCUMENT_PUT_RAW))
    ensures !ParseRaw(w).value.DocumentPutRaw? ==>
      && ParseRaw(w).value.SnapshotResponseRaw?
      && Get(w.entries, "schemaVersion") == Some(Str(SNAPSHOT_RESPONSE_RAW))
  {
    hide ParseRawDocument, ParseRawDocuments, Get;
  }

  // ---- Schema descriptors

  lemma DescriptorFieldsOf(v: WireValue)
    requires v.Map? && Named(v.entries, DESCRIPTOR_NAMES)
    ensures var e := v.entries;
      && |e| == 8
      && e[0].0 == Str("schemaId") && Get(e, "schemaId") == Some(e[0].1)
      && e[1].0 == Str("kind") && Get(e, "kind") == Some(e[1].1)
      && e[2].0 == Str("schemaVersion") && Get(e, "schemaVersion") == Some(e[2].1)
      && e[3].0 == Str("documentType") && Get(e, "documentType") == Some(e[3].1)
      && e[4].0 == Str("title") && Get(e, "title") == Some(e[4].1)
      && e[5].0 == Str("wireContracts") && Get(e, "wireContracts") == Some(e[5].1)
      && e[6].0 == Str("contentHash") && Get(e, "contentHash") == Some(e[6].1)
      && e[7].0 == Str("schemaJson") && Get(e, "schemaJson") == Some(e[7].1)
  {
    assert Distinct(DESCRIPTOR_NAMES);
    var e := v.entries;
    assert forall i :: 0 <= i < 8 ==> e[i].0 == Str(DESCRIPTOR_NAMES[i]);
    hide Get, Distinct, Named;
    GetNamed(e, DESCRIPTOR_NAMES, 0);
    GetNamed(e, DESCRIPTOR_NAMES, 1);
    GetNamed(e, DESCRIPTOR_NAMES, 2);
    GetNamed(e, DESCRIPTOR_NAMES, 3);
    GetNamed(e, DESCRIPTOR_NAMES, 4);
    GetNamed(e, DESCRIPTOR_NAMES, 5);
    GetNamed(e, DESCRIPTOR_NAMES, 6);
    GetNamed(e, DESCRIPTOR_NAMES, 7);
  }

  /** What a descriptor is made of. */
  lemma DescriptorParts(v: WireValue)
    requires ParseDescriptor(v).Ok?
    ensures v.Map?
    ensures var e, d := v.entries, ParseDescriptor(v).value;
      && Get(e, "schemaId") == Some(Str(d.schemaId))
      && Get(e, "kind").Some? && Get(e, "kind").value.Str? && KindOf(Get(e, "kind").value.text) == Ok(d.kind)
      && OptionalString(Get(e, "schemaVersion")) == Ok(d.schemaVersion)
      && OptionalString(Get(e, "documentType")) == Ok(d.documentType)
      && OptionalString(Get(e, "title")) == Ok(d.title)
      && ParseWireContracts(Get(e, "wireContracts")) == Ok(d.wireContracts)
      && Get(e, "contentHash") == Some(Str(d.contentHash))
      && OptionalString(Get(e, "schemaJson")) == Ok(d.schemaJson)
  {
    hide Get, OptionalString, ParseWireContracts, KindOf;
  }

  lemma DescriptorIsNamed(d: SchemaDescriptor)
    ensures Named(EncodeDescriptor(d).entries, DESCRIPTOR_NAMES)
  {
    hide ContractNames, Strs, KindName, OrNil;
  }

  /** With the fields in order, only absent contracts are written differently. */
  lemma NamedDescriptorWritten(v: WireValue)
    requires ParseDescriptor(v).Ok? && Named(v.entries, DESCRIPTOR_NAMES)
    ensures var d := ParseDescriptor(v).value;
      EncodeDescriptor(d) == v <==> Array(Strs(ContractNames(d.wireContracts))) == v.entries[5].1
  {
    var e, d := v.entries, ParseDescriptor(v).value;
    DescriptorFieldsOf(v);
    DescriptorParts(v);
    hide Get, Named, DESCRIPTOR_NAMES, ParseDescriptor, OrNil, OptionalString, ParseWireContracts, ContractNames, Strs,
      KindOf, KindName;
    OptionalRewritten(e[2].1);
    OptionalRewritten(e[3].1);
    OptionalRewritten(e[4].1);
    OptionalRewritten(e[7].1);
    KindRewritten(e[1].1.text);
    assert EncodeDescriptor(d).entries[5].1 == Array(Strs(ContractNames(d.wireContracts)));
    hide EncodeDescriptor, OptionalNonEmpty, IsTextOrNil;
    if Array(Strs(ContractNames(d.wireContracts))) == e[5].1 { DescriptorOfEntries(e, d); }
  }

  lemma DescriptorOfEntries(e: seq<(WireValue, WireValue)>, d: SchemaDescriptor)
    requires |e| == 8
    requires e[0] == (Str("schemaId"), Str(d.schemaId)) && e[1] == (Str("kind"), Str(KindName(d.kind)))
    requires e[2] == (Str("schemaVersion"), OrNil(d.schemaVersion))
    requires e[3] == (Str("documentType"), OrNil(d.documentType)) && e[4] == (Str("title"), OrNil(d.title))
    requires e[5] == (Str("wireContracts"), Array(Strs(ContractNames(d.wireContracts))))
    requires e[6] == (Str("contentHash"), Str(d.contentHash)) && e[7] == (Str("schemaJson"), OrNil(d.schemaJson))
    ensures EncodeDescriptor(d) == Map(e)
  {
    hide OrNil, KindName, Strs, ContractNames;
    assert EncodeDescriptor(d).entries == e;
  }

  lemma NamedDescriptorIsValid(v: WireValue)
    requires ParseDescriptor(v).Ok? && Named(v.entries, DESCRIPTOR_NAMES)
    ensures var e, d := v.entries, ParseDescriptor(v).value;
      ValidateDescriptor(d).Ok? <==>
        && IsText(e[0].1) && IsText(e[6].1) && IsTextOrNil(e[2].1) && IsTextOrNil(e[3].1) && IsTextOrNil(e[4].1)
        && IsTextOrNil(e[7].1) && d.wireContracts != []
  {
    var e := v.entries;
    DescriptorFieldsOf(v);
    DescriptorParts(v);
    hide Get, Named, DESCRIPTOR_NAMES, ParseDescriptor, OrNil, OptionalString, ParseWireContracts, KindOf, IsBlank;
    OptionalRewritten(e[2].1);
    OptionalRewritten(e[3].1);
    OptionalRewritten(e[4].1);
    OptionalRewritten(e[7].1);
    hide OptionalNonEmpty, IsTextOrNil;
  }

  /** A value that carries the fields in order. */
  lemma NamedDescriptorRewritten(v: WireValue)
    requires ParseDescriptor(v).Ok? && Named(v.entries, DESCRIPTOR_NAMES)
    ensures var d := ParseDescriptor(v).value;
      EncodeDescriptor(d) == v && ValidateDescriptor(d).Ok? <==> DescriptorForm(v)
  {
    DescriptorFieldsOf(v);
    DescriptorParts(v);
    hide Get, Named, DESCRIPTOR_NAMES, ParseDescriptor, EncodeDescriptor, ValidateDescriptor, IsText, IsTextOrNil,
      ParseWireContracts, OptionalString, KindOf, ContractNames, Strs;
    NamedDescriptorWritten(v);
    NamedDescriptorIsValid(v);
    WireContractsRewritten(v.entries[5].1);
  }

  /** Encoding a parsed descriptor gives it back, and it is valid, exactly if it has the form. */
  lemma DescriptorRewritten(v: WireValue)
    requires ParseDescriptor(v).Ok?
    ensures var d := ParseDescriptor(v).value;
      EncodeDescriptor(d) == v && ValidateDescriptor(d).Ok? <==> DescriptorForm(v)
  {
    hide ParseDescriptor, EncodeDescriptor, ValidateDescriptor, Named;
    DescriptorIsNamed(ParseDescriptor(v).value);
    DescriptorIsAMap(v);
    if Named(v.entries, DESCRIPTOR_NAMES) { NamedDescriptorRewritten(v); }
  }

  lemma DescriptorIsAMap(v: WireValue)
    requires ParseDescriptor(v).Ok?
    ensures v.Map?
  {
  }

  lemma {:induction false} DescriptorsRewritten(items: seq<WireValue>)
    requires ParseDescriptors(items).Ok?
    ensures var schemas := ParseDescriptors(items).value;
      EncodeDescriptors(schemas) == items && ValidateDescriptors(schemas).Ok? <==> DescriptorForms(items)
  {
    hide ParseDescriptor, EncodeDescriptor, DescriptorForm, ValidateDescriptor;
    if items != [] {
      var schemas := ParseDescriptors(items).value;
      DescriptorRewritten(items[0]);
      DescriptorsRewritten(items[1..]);
      assert schemas[1..] == ParseDescriptors(items[1..]).value;
      assert EncodeDescriptors(schemas) == [EncodeDescriptor(schemas[0])] + EncodeDescriptors(schemas[1..]);
      assert items == [items[0]] + items[1..];
      assert DescriptorForms(items) <==> DescriptorForm(items[0]) && DescriptorForms(items[1..]);
    }
  }

  // ---- Legacy messages

  /** Only the text of no bytes is blank. */
  lemma EncodedIsBlank(b: Bytes)
    ensures IsBlank(Base64Url.Encode(b)) <==> b == []
  {
    if b != [] {
      var c := Base64Url.Encode(b)[0];
      assert c == Base64Url.Digit(Base64Url.First(b[0])) && !IsWhitespace(c);
    }
  }

  lemma CredentialRewritten(v: WireValue)
    requires ParseLegacyBytes(Some(v)).Ok?
    ensures var text := ParseLegacyBytes(Some(v)).value;
      NonEmpty(text).Ok? && LegacyBytes(text) == Ok(v) <==> IsCredential(v)
  {
    var b := RequireBytes(Some(v)).value;
    EncodedIsBlank(b);
    Base64Url.DecodeUndoesEncode(b);
    hide IsBlank;
  }

  lemma {:induction false} AllNonEmptyOf(texts: seq<string>)
    ensures AllNonEmpty(texts).Ok? <==> forall i :: 0 <= i < |texts| ==> NonEmpty(texts[i]).Ok?
  {
    hide NonEmpty;
    if texts != [] {
      AllNonEmptyOf(texts[1..]);
      assert texts == [texts[0]] + texts[1..];
    }
  }

  /** The credentials of a message are written as they came, and valid, exactly if they came as bytes and not empty. */
  ghost predicate Rewritten(texts: seq<string>, payload: seq<WireValue>) {
    && |payload| == |texts|
    && AllNonEmpty(texts).Ok?
    && forall i :: 0 <= i < |texts| ==> LegacyBytes(texts[i]) == Ok(payload[i])
  }

  lemma CredentialsRewritten(texts: seq<string>, payload: seq<WireValue>)
    requires |texts| <= |payload|
    requires forall i :: 0 <= i < |texts| ==> ParseLegacyBytes(Some(payload[i])) == Ok(texts[i])
    ensures Rewritten(texts, payload) <==> |payload| == |texts| && AllCredentials(payload)
  {
    hide ParseLegacyBytes, NonEmpty, LegacyBytes, IsCredential;
    AllNonEmptyOf(texts);
    forall i | 0 <= i < |texts|
      ensures NonEmpty(texts[i]).Ok? && LegacyBytes(texts[i]) == Ok(payload[i]) <==> IsCredential(payload[i])
    {
      CredentialRewritten(payload[i]);
    }
  }

  lemma SecretsRewritten(tag: int, payload: seq<WireValue>)
    requires 0 <= tag <= 3 && ParseTagged(tag, payload).Ok?
    ensures var m := ParseTagged(tag, payload).value;
      Validate(m).Ok? && EncodeLegacy(m) == Ok(Pair(tag, payload)) <==> LegacyForm(tag, payload)
  {
    hide ParseTagged, EncodeLegacy, Validate, ParseLegacyBytes, AllCredentials, Rewritten, Credentials;
    SecretsParts(tag, payload);
    var m := ParseTagged(tag, payload).value;
    CredentialsRewritten(Credentials(m), payload);
    SecretsWritten(m, tag, payload);
  }

  lemma SecretsParts(tag: int, payload: seq<WireValue>)
    requires 0 <= tag <= 3 && ParseTagged(tag, payload).Ok?
    ensures var m := ParseTagged(tag, payload).value;
      var texts := Credentials(m);
      && (m.Login? || m.Register? || m.Verify? || m.LoginSuccess?)
      && tag == (if m.Login? then 0 else if m.Register? then 1 else if m.Verify? then 2 else 3)
      && |texts| == (if tag == 0 then 3 else if tag == 1 then 4 else 2) && |texts| <= |payload|
      && forall i :: 0 <= i < |texts| ==> ParseLegacyBytes(Some(payload[i])) == Ok(texts[i])
  {
    hide ParseLegacyBytes;
    NoBytes();
  }

  lemma NoBytes()
    ensures ParseLegacyBytes(None).Err?
  {
  }

  lemma SecretsWritten(m: Message, tag: int, payload: seq<WireValue>)
    requires m.Login? || m.Register? || m.Verify? || m.LoginSuccess?
    requires tag == if m.Login? then 0 else if m.Register? then 1 else if m.Verify? then 2 else 3
    ensures Validate(m).Ok? && EncodeLegacy(m) == Ok(Pair(tag, payload)) <==> Rewritten(Credentials(m), payload)
  {
    hide LegacyBytes, AllNonEmpty;
    var texts := Credentials(m);
    if Rewritten(texts, payload) {
      assert LegacyBytes(texts[0]) == Ok(payload[0]) && LegacyBytes(texts[1]) == Ok(payload[1]);
      assert |texts| > 2 ==> LegacyBytes(texts[2]) == Ok(payload[2]);
      assert |texts| > 3 ==> LegacyBytes(texts[3]) == Ok(payload[3]);
      assert payload == EncodeLegacy(m).value.items[1].items;
    }
  }

  lemma CatalogRequestRewritten(payload: seq<WireValue>)
    requires ParseTagged(7, payload).Ok?
    ensures var m := ParseTagged(7, payload).value;
      Validate(m).Ok? && EncodeLegacy(m) == Ok(Pair(7, payload)) <==> LegacyForm(7, payload)
  {
    var m := ParseTagged(7, payload).value;
    hide OptionalStrings, OptionalKinds, StringsOrNil, KindsOrNil, OptionalAllNonEmpty, AreTextsOrNil, IsBlank;
    if |payload| == 4 {
      TextsRewritten(payload[2]);
      OptionalKindsRewritten(payload[3]);
      assert EncodeLegacy(m).value.items[1].items == payload;
    }
  }

  lemma CatalogResponseParts(payload: seq<WireValue>)
    requires ParseTagged(8, payload).Ok?
    ensures |payload| >= 2 && payload[0].Str? && payload[1].Array? && ParseDescriptors(payload[1].items).Ok?
    ensures ParseTagged(8, payload).value
      == SchemaCatalogResponse(payload[0].text, ParseDescriptors(payload[1].items).value)
  {
    hide ParseDescriptors;
  }

  lemma CatalogResponseWritten(messageId: string, schemas: seq<SchemaDescriptor>, payload: seq<WireValue>)
    ensures var m := SchemaCatalogResponse(messageId, schemas);
      Validate(m).Ok? && EncodeLegacy(m) == Ok(Pair(8, payload)) <==>
        && payload == [Str(messageId), Array(EncodeDescriptors(schemas))]
        && !IsBlank(messageId) && ValidateDescriptors(schemas).Ok?
  {
    hide EncodeDescriptors, ValidateDescriptors, IsBlank;
  }

  lemma CatalogResponseRewritten(payload: seq<WireValue>)
    requires ParseTagged(8, payload).Ok?
    ensures var m := ParseTagged(8, payload).value;
      Validate(m).Ok? && EncodeLegacy(m) == Ok(Pair(8, payload)) <==> LegacyForm(8, payload)
  {
    hide ParseTagged, EncodeLegacy, Validate, ParseDescriptors, EncodeDescriptors, ValidateDescriptors, DescriptorForms,
      IsBlank;
    CatalogResponseParts(payload);
    var schemas := ParseDescriptors(payload[1].items).value;
    CatalogResponseWritten(payload[0].text, schemas, payload);
    DescriptorsRewritten(payload[1].items);
    var written := [Str(payload[0].text), Array(EncodeDescriptors(schemas))];
    assert payload == written <==> |payload| == 2 && payload[1] == written[1];
  }

  lemma SayingRewritten(tag: int, payload: seq<WireValue>)
    requires 4 <= tag <= 6 && ParseTagged(tag, payload).Ok?
    ensures var m := ParseTagged(tag, payload).value;
      Validate(m).Ok? && EncodeLegacy(m) == Ok(Pair(tag, payload)) <==> LegacyForm(tag, payload)
  {
    hide IsBlank;
    if |payload| == 1 { assert payload == [payload[0]]; }
  }

  /** Encoding a parsed legacy message, validation included, gives the value back exactly if it has the form. */
  lemma LegacyMessageRewritten(tag: int, payload: seq<WireValue>)
    requires ParseTagged(tag, payload).Ok?
    ensures var m := ParseTagged(tag, payload).value;
      Validate(m).Ok? && EncodeLegacy(m) == Ok(Pair(tag, payload)) <==> LegacyForm(tag, payload)
  {
    assert 0 <= tag <= 8;
    hide ParseTagged, EncodeLegacy, Validate, LegacyForm;
    if tag <= 3 {
      SecretsRewritten(tag, payload);
    } else if tag <= 6 {
      SayingRewritten(tag, payload);
    } else if tag == 7 {
      CatalogRequestRewritten(payload);
    } else {
      CatalogResponseRewritten(payload);
    }
  }

  // ---- Both contracts

  /** Encoding a parsed message gives the value back exactly if it has the form the encoder of the contract writes. */
  lemma EncodeUndoesParse(w: WireValue, contract: WireContract)
    requires ParseMessage(w, contract).Ok?
    ensures EncodeForWire(ParseMessage(w, contract).value, contract) == Ok(w) <==> HasForm(w, contract)
  {
    hide ParseRaw, EncodeRaw, ParseTagged, EncodeLegacy, Validate, AnnouncesRaw, PutForm, SnapshotForm, LegacyForm;
    match contract
    case CultNetSchemaV0 =>
      RawMessageRewritten(w);
      RawIsRaw(w);
    case GameCultNetworkingV0 =>
      LegacyMessageRewritten(w.items[0].n, w.items[1].items);
      PairOf(w);
  }

  lemma RawIsRaw(w: WireValue)
    requires ParseRaw(w).Ok?
    ensures ParseRaw(w).value.DocumentPutRaw? || ParseRaw(w).value.SnapshotResponseRaw?
  {
    RawVersion(w);
  }

  lemma PairOf(w: WireValue)
    requires w.Array? && |w.items| == 2 && w.items[0].Integer? && w.items[1].Array?
    ensures Pair(w.items[0].n, w.items[1].items) == w
  {
    assert w.items == [w.items[0], w.items[1]];
  }
}
