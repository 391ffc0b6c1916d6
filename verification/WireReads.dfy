/** Which values parse, and to what: for every value and message of either contract, spelled out. Parsing is liberal:
    names may come in any order and among others, an absent value is as good as null, a text as good as its bytes. */
module WireReads {
  import opened Prelude
  import opened Messages
  import opened Contracts
  import opened WireNames

  // ---- Values

  /** v stands at the first place that carries the name, if any does. */
  ghost predicate FirstUnder(entries: seq<(WireValue, WireValue)>, name: string, v: Option<WireValue>) {
    if v.None? then forall i :: 0 <= i < |entries| ==> entries[i].0 != Str(name)
    else exists k :: 0 <= k < |entries| && StandsAt(entries, name, k) && entries[k].1 == v.value
  }

  ghost predicate StandsAt(entries: seq<(WireValue, WireValue)>, name: string, k: nat)
    requires k < |entries|
  {
    entries[k].0 == Str(name) && forall i :: 0 <= i < k ==> entries[i].0 != Str(name)
  }

  /** A name stands for the value at the first place that carries it. */
  lemma {:induction false} NamesAreFoundFirst(entries: seq<(WireValue, WireValue)>, name: string)
    ensures FirstUnder(entries, name, Get(entries, name))
  {
    if entries != [] {
      if entries[0].0 == Str(name) {
        assert StandsAt(entries, name, 0);
      } else {
        var v := Get(entries[1..], name);
        NamesAreFoundFirst(entries[1..], name);
        if v.Some? {
          var k :| 0 <= k < |entries| - 1 && StandsAt(entries[1..], name, k) && entries[1..][k].1 == v.value;
          assert StandsAt(entries, name, k + 1);
        }
      }
    }
  }

  predicate IsTextThere(v: Option<WireValue>, text: string) {
    v == Some(Str(text))
  }

  predicate IsTextIfAny(v: Option<WireValue>, text: Option<string>) {
    if text.None? then v == None || v == Some(Nil) else v == Some(Str(text.value))
  }

  /** The items are these texts. */
  predicate AreTexts(items: seq<WireValue>, texts: seq<string>) {
    |items| == |texts| && forall i :: 0 <= i < |items| ==> items[i] == Str(texts[i])
  }

  predicate AreTextsIfAny(v: Option<WireValue>, texts: Option<seq<string>>) {
    if texts.None? then v == None || v == Some(Nil)
    else v.Some? && v.value.Array? && AreTexts(v.value.items, texts.value)
  }

  /** The value is these bytes, or a text whose UTF-8 bytes they are. */
  predicate AreBytes(v: Option<WireValue>, bytes: Bytes) {
    v.Some? && (v.value == Binary(bytes) || (v.value.Str? && bytes == Utf8.StringBytes(v.value.text)))
  }

  lemma TextIfAnyParses(v: Option<WireValue>, text: Option<string>)
    ensures OptionalString(v) == Ok(text) <==> IsTextIfAny(v, text)
  {
  }

  lemma BytesParse(v: Option<WireValue>, bytes: Bytes)
    ensures RequireBytes(v) == Ok(bytes) <==> AreBytes(v, bytes)
  {
    hide Utf8.StringBytes;
  }

  lemma {:induction false} TextsParse(items: seq<WireValue>, texts: seq<string>)
    ensures RequireStrings(items) == Ok(texts) <==> AreTexts(items, texts)
  {
    if items != [] && texts != [] {
      TextsParse(items[1..], texts[1..]);
      assert items == [items[0]] + items[1..] && texts == [texts[0]] + texts[1..];
    }
  }

  lemma TextsIfAnyParse(v: Option<WireValue>, texts: Option<seq<string>>)
    ensures OptionalStrings(v) == Ok(texts) <==> AreTextsIfAny(v, texts)
  {
    hide RequireStrings, AreTexts;
    if v.Some? && v.value.Array? && texts.Some? { TextsParse(v.value.items, texts.value); }
  }

  // ---- Raw messages

  predicate IsDocument(e: seq<(WireValue, WireValue)>, d: RawDocument) {
    && IsTextThere(Get(e, "schemaId"), d.schemaId)
    && IsTextThere(Get(e, "recordKey"), d.recordKey)
    && IsTextThere(Get(e, "storedAt"), d.storedAt)
    && IsTextThere(Get(e, "payloadEncoding"), "messagepack")
    && AreBytes(Get(e, "payload"), d.payload)
    && IsTextIfAny(Get(e, "sourceRuntimeId"), d.sourceRuntimeId)
    && IsTextIfAny(Get(e, "sourceAgentId"), d.sourceAgentId)
    && IsTextIfAny(Get(e, "sourceRole"), d.sourceRole)
    && AreTextsIfAny(Get(e, "tags"), d.tags)
  }

  /** A value parses to a document exactly if it is a map that holds the document's fields. */
  lemma DocumentParsesExactly(v: Option<WireValue>, d: RawDocument)
    ensures ParseRawDocument(v) == Ok(d) <==> v.Some? && v.value.Map? && IsDocument(v.value.entries, d)
  {
    hide Get, AreBytes, IsTextIfAny, AreTextsIfAny, OptionalString, OptionalStrings, RequireBytes;
    if v.Some? && v.value.Map? {
      var e := v.value.entries;
      BytesParse(Get(e, "payload"), d.payload);
      TextIfAnyParses(Get(e, "sourceRuntimeId"), d.sourceRuntimeId);
      TextIfAnyParses(Get(e, "sourceAgentId"), d.sourceAgentId);
      TextIfAnyParses(Get(e, "sourceRole"), d.sourceRole);
      TextsIfAnyParse(Get(e, "tags"), d.tags);
      assert d.payloadEncoding == Messagepack;
    }
  }

  predicate IsText(v: Option<WireValue>) {
    v.Some? && v.value.Str?
  }

  predicate IsAbsent(v: Option<WireValue>) {
    v == None || v == Some(Nil)
  }

  /** What is wrong with a value that is no document: the first of these. */
  lemma FirstDocumentFault(v: Option<WireValue>)
    ensures !(v.Some? && v.value.Map?) ==> ParseRawDocument(v) == Err(NotAnObject)
    ensures v.Some? && v.value.Map? ==>
      var e, r := v.value.entries, ParseRawDocument(v);
      var encoding, payload, tags := Get(e, "payloadEncoding"), Get(e, "payload"), Get(e, "tags");
      var runtime, agent, role := Get(e, "sourceRuntimeId"), Get(e, "sourceAgentId"), Get(e, "sourceRole");
      if !(IsText(encoding) && IsText(Get(e, "schemaId")) && IsText(Get(e, "recordKey"))
           && IsText(Get(e, "storedAt"))) then r == Err(NotAString)
      else if encoding.value.text != "messagepack" then r == Err(UnsupportedValue(encoding.value.text))
      else if payload.None? || !(payload.value.Binary? || payload.value.Str?) then r == Err(NotBinary)
      else if !((IsAbsent(runtime) || IsText(runtime)) && (IsAbsent(agent) || IsText(agent))
                && (IsAbsent(role) || IsText(role))) then r == Err(NotAString)
      else if IsAbsent(tags) then r.Ok?
      else if !tags.value.Array? then r == Err(NotAnArray)
      else if exists i :: 0 <= i < |tags.value.items| && !tags.value.items[i].Str? then r == Err(NotAString)
      else r.Ok?
  {
    hide Get, RequireStrings;
    if v.Some? && v.value.Map? {
      var tags := Get(v.value.entries, "tags");
      if tags.Some? && tags.value.Array? { FirstTextFault(tags.value.items); }
    }
  }

  lemma {:induction false} FirstTextFault(items: seq<WireValue>)
    ensures if exists i :: 0 <= i < |items| && !items[i].Str? then RequireStrings(items) == Err(NotAString)
            else RequireStrings(items).Ok?
  {
    if items != [] {
      FirstTextFault(items[1..]);
      assert items == [items[0]] + items[1..];
    }
  }

  predicate AreDocuments(items: seq<WireValue>, docs: seq<RawDocument>) {
    && |items| == |docs|
    && forall i :: 0 <= i < |items| ==> items[i].Map? && IsDocument(items[i].entries, docs[i])
  }

  lemma {:induction false} DocumentsParse(items: seq<WireValue>, docs: seq<RawDocument>)
    ensures ParseRawDocuments(items) == Ok(docs) <==> AreDocuments(items, docs)
  {
    hide ParseRawDocument, IsDocument;
    if items != [] && docs != [] {
      DocumentParsesExactly(Some(items[0]), docs[0]);
      DocumentsParse(items[1..], docs[1..]);
      assert items == [items[0]] + items[1..] && docs == [docs[0]] + docs[1..];
    }
  }

  /** The value holds a raw message, under the names of its version. */
  predicate IsRawMessage(w: WireValue, m: Message) {
    && w.Map?
    && match m
       case DocumentPutRaw(messageId, document) =>
         && IsTextThere(Get(w.entries, "schemaVersion"), "cultnet.document_put_raw.v0")
         && IsTextThere(Get(w.entries, "messageId"), messageId)
         && Get(w.entries, "document").Some? && Get(w.entries, "document").value.Map?
         && IsDocument(Get(w.entries, "document").value.entries, document)
       case SnapshotResponseRaw(messageId, documents) =>
         && IsTextThere(Get(w.entries, "schemaVersion"), "cultnet.snapshot_response_raw.v0")
         && IsTextThere(Get(w.entries, "messageId"), messageId)
         && Get(w.entries, "documents").Some? && Get(w.entries, "documents").value.Array?
         && AreDocuments(Get(w.entries, "documents").value.items, documents)
       case _ => false
  }

  lemma RawParses(w: WireValue, m: Message)
    ensures ParseRaw(w) == Ok(m) <==> IsRawMessage(w, m)
  {
    hide Get, ParseRawDocument, ParseRawDocuments, IsDocument, AreDocuments;
    if w.Map? {
      var document, documents := Get(w.entries, "document"), Get(w.entries, "documents");
      if m.DocumentPutRaw? { DocumentParsesExactly(document, m.document); }
      if m.SnapshotResponseRaw? && documents.Some? && documents.value.Array? {
        DocumentsParse(documents.value.items, m.documents);
      }
    }
  }

  /** What is wrong with a value that is no map with the version of a raw message. */
  lemma FirstRawFault(w: WireValue)
    ensures var r := ParseRaw(w);
      if !w.Map? then r == Err(NotAnObject)
      else
        var version := Get(w.entries, "schemaVersion");
        if !IsText(version) then r == Err(NotAString)
        else if version.value.text != "cultnet.document_put_raw.v0"
                && version.value.text != "cultnet.snapshot_response_raw.v0" then
          r == Err(UnsupportedVersion(version.value.text))
        else true
  {
    hide Get, ParseRawDocument, ParseRawDocuments;
  }

  /** The first string under the name is the first value under it, where that is a string. */
  lemma {:induction false} AnnouncedIsFirst(entries: seq<(WireValue, WireValue)>, version: string)
    requires Get(entries, "schemaVersion") == Some(Str(version))
    ensures AnnouncedVersion(entries) == Some(version)
  {
    if entries[0].0 != Str("schemaVersion") { AnnouncedIsFirst(entries[1..], version); }
  }

  /** A value parses to a raw message exactly if it holds the message and the message is valid. */
  lemma RawParsesExactly(w: WireValue, m: Message)
    ensures ParseMessage(w, CultNetSchemaV0) == Ok(m) <==> IsRawMessage(w, m) && ValidMessage(m)
  {
    hide ParseRaw, Validate, ValidMessage, AnnouncedVersion, Get, IsDocument, AreDocuments;
    RawParses(w, m);
    ValidatesExactly(m);
    if IsRawMessage(w, m) { AnnouncedIsFirst(w.entries, Get(w.entries, "schemaVersion").value.text); }
  }

  // ---- Schema descriptors

  predicate AreKinds(v: Option<WireValue>, kinds: Option<seq<SchemaKind>>) {
    if kinds.None? then v == None || v == Some(Nil)
    else v.Some? && v.value.Array? && AreTexts(v.value.items, KindNames(kinds.value))
  }

  /** No contracts may as well be absent or null. */
  predicate AreContracts(v: Option<WireValue>, contracts: seq<WireContract>) {
    || (contracts == [] && (v == None || v == Some(Nil)))
    || (v.Some? && v.value.Array? && AreTexts(v.value.items, ContractNames(contracts)))
  }

  predicate IsDescriptor(e: seq<(WireValue, WireValue)>, d: SchemaDescriptor) {
    && IsTextThere(Get(e, "schemaId"), d.schemaId)
    && IsTextThere(Get(e, "kind"), KindName(d.kind))
    && IsTextIfAny(Get(e, "schemaVersion"), d.schemaVersion)
    && IsTextIfAny(Get(e, "documentType"), d.documentType)
    && IsTextIfAny(Get(e, "title"), d.title)
    && AreContracts(Get(e, "wireContracts"), d.wireContracts)
    && IsTextThere(Get(e, "contentHash"), d.contentHash)
    && IsTextIfAny(Get(e, "schemaJson"), d.schemaJson)
  }

  lemma KindParses(name: string, kind: SchemaKind)
    ensures KindOf(name) == Ok(kind) <==> name == KindName(kind)
  {
  }

  lemma ContractParses(name: string, contract: WireContract)
    ensures ContractOf(name) == Ok(contract) <==> name == ContractName(contract)
  {
  }

  lemma {:induction false} KindsParse(names: seq<string>, kinds: seq<SchemaKind>)
    ensures KindsOf(names) == Ok(kinds) <==> names == KindNames(kinds)
  {
    hide KindOf, KindName;
    if names != [] && kinds != [] {
      KindParses(names[0], kinds[0]);
      KindsParse(names[1..], kinds[1..]);
      assert names == [names[0]] + names[1..] && kinds == [kinds[0]] + kinds[1..];
      assert KindNames(kinds) == [KindName(kinds[0])] + KindNames(kinds[1..]);
    } else {
      assert |KindNames(kinds)| == |kinds|;
    }
  }

  lemma {:induction false} ContractsParse(names: seq<string>, contracts: seq<WireContract>)
    ensures ContractsOf(names) == Ok(contracts) <==> names == ContractNames(contracts)
  {
    hide ContractOf, ContractName;
    if names != [] && contracts != [] {
      ContractParses(names[0], contracts[0]);
      ContractsParse(names[1..], contracts[1..]);
      assert names == [names[0]] + names[1..] && contracts == [contracts[0]] + contracts[1..];
      assert ContractNames(contracts) == [ContractName(contracts[0])] + ContractNames(contracts[1..]);
    } else {
      assert |ContractNames(contracts)| == |contracts|;
    }
  }

  /** Texts that are these names. */
  lemma SameTexts(items: seq<WireValue>, texts: seq<string>, names: seq<string>)
    requires AreTexts(items, texts)
    ensures AreTexts(items, names) <==> texts == names
  {
    assert forall i :: 0 <= i < |items| ==> items[i] == Str(texts[i]);
  }

  lemma KindsIfAnyParse(v: Option<WireValue>, kinds: Option<seq<SchemaKind>>)
    ensures OptionalKinds(v) == Ok(kinds) <==> AreKinds(v, kinds)
  {
    hide OptionalStrings, KindsOf, KindNames, AreTexts;
    var texts := OptionalStrings(v);
    if texts.Ok? {
      TextsIfAnyParse(v, texts.value);
      if texts.value.Some? && kinds.Some? {
        KindsParse(texts.value.value, kinds.value);
        SameTexts(v.value.items, texts.value.value, KindNames(kinds.value));
      }
    } else if kinds.Some? {
      TextsIfAnyParse(v, Some(KindNames(kinds.value)));
    } else {
      TextsIfAnyParse(v, None);
    }
  }

  lemma ContractsIfAnyParse(v: Option<WireValue>, contracts: seq<WireContract>)
    ensures ParseWireContracts(v) == Ok(contracts) <==> AreContracts(v, contracts)
  {
    hide OptionalStrings, ContractsOf, ContractNames, AreTexts;
    var texts := OptionalStrings(v);
    TextsIfAnyParse(v, Some(ContractNames(contracts)));
    TextsIfAnyParse(v, None);
    if texts.Ok? {
      TextsIfAnyParse(v, texts.value);
      if texts.value.Some? {
        ContractsParse(texts.value.value, contracts);
        SameTexts(v.value.items, texts.value.value, ContractNames(contracts));
      }
    }
  }

  /** A value parses to a descriptor exactly if it is a map that holds the descriptor's fields. */
  lemma DescriptorParsesExactly(v: WireValue, d: SchemaDescriptor)
    ensures ParseDescriptor(v) == Ok(d) <==> v.Map? && IsDescriptor(v.entries, d)
  {
    hide Get, IsTextIfAny, OptionalString, ParseWireContracts, AreContracts, KindOf, KindName;
    if v.Map? {
      var e := v.entries;
      TextIfAnyParses(Get(e, "schemaVersion"), d.schemaVersion);
      TextIfAnyParses(Get(e, "documentType"), d.documentType);
      TextIfAnyParses(Get(e, "title"), d.title);
      ContractsIfAnyParse(Get(e, "wireContracts"), d.wireContracts);
      TextIfAnyParses(Get(e, "schemaJson"), d.schemaJson);
      var kind := Get(e, "kind");
      if kind.Some? && kind.value.Str? { KindParses(kind.value.text, d.kind); }
    }
  }

  predicate AreDescriptors(items: seq<WireValue>, schemas: seq<SchemaDescriptor>) {
    && |items| == |schemas|
    && forall i :: 0 <= i < |items| ==> items[i].Map? && IsDescriptor(items[i].entries, schemas[i])
  }

  lemma {:induction false} DescriptorsParse(items: seq<WireValue>, schemas: seq<SchemaDescriptor>)
    ensures ParseDescriptors(items) == Ok(schemas) <==> AreDescriptors(items, schemas)
  {
    hide ParseDescriptor, IsDescriptor;
    if items != [] && schemas != [] {
      DescriptorParsesExactly(items[0], schemas[0]);
      DescriptorsParse(items[1..], schemas[1..]);
      assert items == [items[0]] + items[1..] && schemas == [schemas[0]] + schemas[1..];
    }
  }

  // ---- Legacy messages

  /** The text is the base64url text of the value's bytes. */
  predicate IsTextOfBytes(v: Option<WireValue>, text: string) {
    && v.Some?
    && ((v.value.Binary? && text == Base64Url.Encode(v.value.bytes))
        || (v.value.Str? && text == Base64Url.Encode(Utf8.StringBytes(v.value.text))))
  }

  /** The fields of a legacy message, each in its place; what follows them is not looked at. */
  predicate HoldsFields(p: seq<WireValue>, m: Message) {
    match m
    case Login(nonce, auth, password) =>
      IsTextOfBytes(At(p, 0), nonce) && IsTextOfBytes(At(p, 1), auth) && IsTextOfBytes(At(p, 2), password)
    case Register(nonce, email, password, name) =>
      && IsTextOfBytes(At(p, 0), nonce) && IsTextOfBytes(At(p, 1), email)
      && IsTextOfBytes(At(p, 2), password) && IsTextOfBytes(At(p, 3), name)
    case Verify(nonce, session) => IsTextOfBytes(At(p, 0), nonce) && IsTextOfBytes(At(p, 1), session)
    case LoginSuccess(nonce, session) => IsTextOfBytes(At(p, 0), nonce) && IsTextOfBytes(At(p, 1), session)
    case ErrorMessage(error) => IsTextThere(At(p, 0), error)
    case SampleChangeName(name) => IsTextThere(At(p, 0), name)
    case SampleChat(text) => IsTextThere(At(p, 0), text)
    case SchemaCatalogRequest(messageId, withJson, schemaIds, kinds) =>
      && IsTextThere(At(p, 0), messageId) && withJson.Some? && At(p, 1) == Some(Boolean(withJson.value))
      && AreTextsIfAny(At(p, 2), schemaIds) && AreKinds(At(p, 3), kinds)
    case SchemaCatalogResponse(messageId, schemas) =>
      && IsTextThere(At(p, 0), messageId) && At(p, 1).Some? && At(p, 1).value.Array?
      && AreDescriptors(At(p, 1).value.items, schemas)
    case _ => false
  }

  lemma CredentialParses(v: Option<WireValue>, text: string)
    ensures ParseLegacyBytes(v) == Ok(text) <==> IsTextOfBytes(v, text)
  {
    hide Utf8.StringBytes, Base64Url.Encode;
  }

  lemma SecretsParse(tag: int, p: seq<WireValue>, m: Message)
    requires 0 <= tag <= 3
    ensures ParseTagged(tag, p) == Ok(m) <==> tag == TagOf(m) && HoldsFields(p, m)
  {
    hide ParseLegacyBytes, IsTextOfBytes, At, AreTextsIfAny, AreKinds, AreDescriptors;
    match m
    case Login(nonce, auth, password) => FieldsParse(p, [nonce, auth, password]);
    case Register(nonce, email, password, name) => FieldsParse(p, [nonce, email, password, name]);
    case Verify(nonce, session) => FieldsParse(p, [nonce, session]);
    case LoginSuccess(nonce, session) => FieldsParse(p, [nonce, session]);
    case _ =>
  }

  lemma FieldsParse(p: seq<WireValue>, texts: seq<string>)
    ensures forall i :: 0 <= i < |texts| ==>
      (ParseLegacyBytes(At(p, i)) == Ok(texts[i]) <==> IsTextOfBytes(At(p, i), texts[i]))
  {
    hide ParseLegacyBytes, IsTextOfBytes, At;
    forall i | 0 <= i < |texts|
      ensures ParseLegacyBytes(At(p, i)) == Ok(texts[i]) <==> IsTextOfBytes(At(p, i), texts[i])
    {
      CredentialParses(At(p, i), texts[i]);
    }
  }

  lemma OthersParse(tag: int, p: seq<WireValue>, m: Message)
    requires !(0 <= tag <= 3)
    ensures ParseTagged(tag, p) == Ok(m) <==> tag == TagOf(m) && HoldsFields(p, m)
  {
    hide At, OptionalStrings, OptionalKinds, ParseDescriptors, AreTextsIfAny, AreKinds, AreDescriptors, IsTextOfBytes;
    match m
    case SchemaCatalogRequest(_, _, schemaIds, kinds) =>
      TextsIfAnyParse(At(p, 2), schemaIds);
      KindsIfAnyParse(At(p, 3), kinds);
    case SchemaCatalogResponse(_, schemas) =>
      if At(p, 1).Some? && At(p, 1).value.Array? { DescriptorsParse(At(p, 1).value.items, schemas); }
    case _ =>
  }

  /** A value parses to a legacy message exactly if it is a pair of the message's tag and a list that holds its
      fields. */
  lemma LegacyParsesExactly(w: WireValue, m: Message)
    ensures ParseMessage(w, GameCultNetworkingV0) == Ok(m) <==>
      && w.Array? && |w.items| == 2 && w.items[0] == Integer(TagOf(m)) && w.items[1].Array?
      && HoldsFields(w.items[1].items, m)
  {
    hide ParseTagged, HoldsFields;
    if w.Array? && |w.items| == 2 && w.items[0].Integer? && w.items[1].Array? {
      var tag := w.items[0].n;
      if 0 <= tag <= 3 { SecretsParse(tag, w.items[1].items, m); } else { OthersParse(tag, w.items[1].items, m); }
      NoFieldsWithoutTag(w.items[1].items, m);
    }
  }

  /** What is wrong with a value that is no pair of a 64-bit tag and a list, or has no message's tag. */
  lemma FirstLegacyFault(w: WireValue)
    ensures var r := ParseMessage(w, GameCultNetworkingV0);
      if !(w.Array? && |w.items| == 2) then r == Err(NotAPair)
      else if !(w.items[0].Integer? && -9223372036854775808 <= w.items[0].n <= 9223372036854775807) then
        r == Err(NotAnInteger)
      else if !w.items[1].Array? then r == Err(NotAnArray)
      else if !(0 <= w.items[0].n <= 8) then r == Err(UnsupportedTag(w.items[0].n))
      else r == ParseTagged(w.items[0].n, w.items[1].items)
  {
    hide RequireString, RequireBool, RequireArray, OptionalStrings, OptionalKinds, ParseDescriptors, ParseLegacyBytes;
  }

  lemma NoFieldsWithoutTag(p: seq<WireValue>, m: Message)
    ensures HoldsFields(p, m) ==> 0 <= TagOf(m) <= 8
  {
  }
}
