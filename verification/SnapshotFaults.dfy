/** Which fault a query, a request or a response that is refused is refused for: the first one found. */
module SnapshotFaults {
  import opened Prelude
  import opened Text
  import opened Messages
  import opened Snapshot

  // ---- Asking

  predicate BadName(names: seq<string>, i: nat) {
    i < |names| && (IsBlank(names[i]) || exists j :: 0 <= j < i && names[j] == names[i])
  }

  ghost predicate IsFirstBadName(names: seq<string>, i: nat) {
    BadName(names, i) && forall j: nat :: j < i ==> !BadName(names, j)
  }

  lemma {:induction false} FirstBadName(names: seq<string>, k: nat, i: nat)
    requires k <= i && IsFirstBadName(names, i)
    ensures ListError(names, k) == Some(if IsBlank(names[i]) then Blank else Duplicate)
    decreases i - k
  {
    hide IsBlank;
    assert forall j :: 0 <= j < k ==> names[..k][j] == names[j];
    assert BadName(names, k) <==> k == i;
    if k < i { FirstBadName(names, k + 1, i); }
  }

  predicate BadExpectation(records: seq<RecordExpectation>, i: nat) {
    && i < |records|
    && (IsBlank(records[i].schemaId) || IsBlank(records[i].recordKey) || AskedBefore(records, i))
  }

  ghost predicate IsFirstBadExpectation(records: seq<RecordExpectation>, i: nat) {
    BadExpectation(records, i) && forall j: nat :: j < i ==> !BadExpectation(records, j)
  }

  predicate AskedBefore(records: seq<RecordExpectation>, i: nat)
    requires i < |records|
  {
    exists j :: 0 <= j < i && records[j].schemaId == records[i].schemaId && records[j].recordKey == records[i].recordKey
  }

  lemma {:induction false} FirstBadExpectation(records: seq<RecordExpectation>, k: nat, i: nat)
    requires k <= i && IsFirstBadExpectation(records, i)
    ensures ExpectationError(records, k)
      == Some(if IsBlank(records[i].schemaId) || IsBlank(records[i].recordKey) then Blank else Duplicate)
    decreases i - k
  {
    hide IsBlank;
    assert RequestedBefore(records, k) <==> AskedBefore(records, k);
    assert BadExpectation(records, k) <==> k == i;
    if k < i { FirstBadExpectation(records, k + 1, i); }
  }

  /** Why a query is not built. */
  lemma QueryFaults(messageId: string, records: seq<RecordExpectation>, i: nat)
    ensures var r := NewQuery(messageId, records);
      if IsBlank(messageId) then r == Err(Blank)
      else if records == [] then r == Err(NoRecordsRequested)
      else if IsFirstBadExpectation(records, i) then
        r == Err(if IsBlank(records[i].schemaId) || IsBlank(records[i].recordKey) then Blank else Duplicate)
      else true
  {
    hide IsBlank, IsFirstBadExpectation, ExpectationError, ExpectationsOf;
    if IsFirstBadExpectation(records, i) { FirstBadExpectation(records, 0, i); }
  }

  // ---- Serving and accepting

  predicate CameBefore(docs: seq<RawDocument>, i: nat)
    requires i < |docs|
  {
    exists j :: 0 <= j < i && docs[j].schemaId == docs[i].schemaId && docs[j].recordKey == docs[i].recordKey
  }

  predicate BadSource(registered: set<string>, docs: seq<RawDocument>, i: nat) {
    i < |docs| && (CameBefore(docs, i) || docs[i].schemaId !in registered)
  }

  ghost predicate IsFirstBadSource(registered: set<string>, docs: seq<RawDocument>, i: nat) {
    BadSource(registered, docs, i) && forall j: nat :: j < i ==> !BadSource(registered, docs, j)
  }

  lemma {:induction false} FirstBadSource(registered: set<string>, docs: seq<RawDocument>, k: nat, i: nat)
    requires k <= i && IsFirstBadSource(registered, docs, i)
    ensures var id := (docs[i].schemaId, docs[i].recordKey);
      SourceError(registered, docs, k)
        == Some(if CameBefore(docs, i) then DuplicateSourceRecord(id) else UnregisteredSchema(id))
    decreases i - k
  {
    assert SeenBefore(docs, k) <==> CameBefore(docs, k);
    assert BadSource(registered, docs, k) <==> k == i;
    if k < i { FirstBadSource(registered, docs, k + 1, i); }
  }

  /** Why a request is not served: i is the first position at which something is wrong, in what is looked at. */
  lemma ServeFaults(registered: set<string>, allowed: set<Identity>, source: Option<seq<RawDocument>>, request: Message,
                    i: nat)
    ensures var r := Serve(registered, allowed, source, request);
      if !request.SnapshotRequest? then r == Err(WrongMessage)
      else if IsBlank(request.messageId) then r == Err(Blank)
      else if !AreNames(request.schemaIds) then
        IsFirstBadName(request.schemaIds.value, i) ==>
          r == Err(if IsBlank(request.schemaIds.value[i]) then Blank else Duplicate)
      else if !AreNames(request.recordKeys) then
        IsFirstBadName(request.recordKeys.value, i) ==>
          r == Err(if IsBlank(request.recordKeys.value[i]) then Blank else Duplicate)
      else if source.None? then r == Err(SourceFailed)
      else if IsFirstBadSource(registered, source.value, i) then
        var id := (source.value[i].schemaId, source.value[i].recordKey);
        r == Err(if CameBefore(source.value, i) then DuplicateSourceRecord(id) else UnregisteredSchema(id))
      else true
  {
    hide IsBlank, IsFirstBadName, IsFirstBadSource, ListError, SourceError, Selection, AreNames, CameBefore;
    if request.SnapshotRequest? {
      NamesAreCheckedExactly(request.schemaIds);
      NamesAreCheckedExactly(request.recordKeys);
      NamesFault(request.schemaIds, i);
      NamesFault(request.recordKeys, i);
      if source.Some? && IsFirstBadSource(registered, source.value, i) {
        FirstBadSource(registered, source.value, 0, i);
      }
    }
  }

  lemma NamesFault(names: Option<seq<string>>, i: nat)
    ensures names.Some? && IsFirstBadName(names.value, i) ==>
      NamesError(names) == Some(if IsBlank(names.value[i]) then Blank else Duplicate)
  {
    hide IsBlank, IsFirstBadName, ListError;
    if names.Some? && IsFirstBadName(names.value, i) { FirstBadName(names.value, 0, i); }
  }

  predicate BadRecord(q: Query, docs: seq<RawDocument>, i: nat) {
    && i < |docs|
    && var id := (docs[i].schemaId, docs[i].recordKey);
      CameBefore(docs, i) || id !in q.expectations || !Agrees(q.expectations[id], docs[i])
  }

  ghost predicate IsFirstBadRecord(q: Query, docs: seq<RawDocument>, i: nat) {
    BadRecord(q, docs, i) && forall j: nat :: j < i ==> !BadRecord(q, docs, j)
  }

  lemma {:induction false} FirstBadRecord(q: Query, docs: seq<RawDocument>, k: nat, i: nat)
    requires k <= i && IsFirstBadRecord(q, docs, i)
    ensures var id := (docs[i].schemaId, docs[i].recordKey);
      ResponseError(q, docs, k)
        == Some(if CameBefore(docs, i) then DuplicateResponseRecord(id)
                else if id !in q.expectations then UnexpectedRecord(id) else UnexpectedMetadata(id))
    decreases i - k
  {
    assert SeenBefore(docs, k) <==> CameBefore(docs, k);
    assert BadRecord(q, docs, k) <==> k == i;
    if k < i { FirstBadRecord(q, docs, k + 1, i); }
  }

  /** Why a response is not accepted. */
  lemma AcceptFaults(q: Query, response: Message, i: nat)
    ensures var r := Accept(q, response);
      if !response.SnapshotResponseRaw? then r == Err(WrongMessage)
      else if response.messageId != q.messageId then r == Err(WrongMessageId)
      else if IsFirstBadRecord(q, response.documents, i) then
        var d := response.documents[i];
        var id := (d.schemaId, d.recordKey);
        r == Err(if CameBefore(response.documents, i) then DuplicateResponseRecord(id)
                 else if id !in q.expectations then UnexpectedRecord(id) else UnexpectedMetadata(id))
      else true
  {
    hide IsFirstBadRecord, ResponseError, CameBefore, Agrees;
    if response.SnapshotResponseRaw? && IsFirstBadRecord(q, response.documents, i) {
      FirstBadRecord(q, response.documents, 0, i);
    }
  }
}
