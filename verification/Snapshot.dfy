/** The read-only snapshot exchange: a query, the server that answers it, and the check of the answer. */
module Snapshot {
  import opened Prelude
  import opened Text
  import opened Messages

  type Identity = (string, string)

  datatype SnapshotError =
    | Blank
    | Duplicate
    | NoRecordsRequested
    | WrongMessage
    | WrongMessageId
    | SourceFailed
    | DuplicateSourceRecord(identity: Identity)
    | UnregisteredSchema(identity: Identity)
    | DuplicateResponseRecord(identity: Identity)
    | UnexpectedRecord(identity: Identity)
    | UnexpectedMetadata(identity: Identity)

  datatype SourceExpectation = SourceExpectation(
    runtimeId: Option<string>,
    agentId: Option<string>,
    role: Option<string>,
    tags: Option<seq<string>>)

  datatype RecordExpectation = RecordExpectation(schemaId: string, recordKey: string, source: SourceExpectation)

  datatype Query = Query(messageId: string, expectations: map<Identity, SourceExpectation>)

  function IdentityOf(d: RawDocument): Identity {
    (d.schemaId, d.recordKey)
  }

  // ---- The policy

  class ReadOnlySnapshotPolicy {
    var allowedRecords: set<Identity>

    constructor ()
      ensures allowedRecords == {}
    {
      allowedRecords := {};
    }

    method Allow(schemaId: string, recordKey: string) returns (r: Result<(), SnapshotError>)
      modifies this
      ensures r.Ok? <==> !IsBlank(schemaId) && !IsBlank(recordKey)
      ensures allowedRecords == old(allowedRecords) + if r.Ok? then {(schemaId, recordKey)} else {}
    {
      if IsBlank(schemaId) || IsBlank(recordKey) {
        return Err(Blank);
      }
      allowedRecords := allowedRecords + {(schemaId, recordKey)};
      r := Ok(());
    }
  }

  // ---- Asking

  /** The first thing wrong with a list of requested names, from position k on. */
  function ListError(values: seq<string>, k: nat): Option<SnapshotError>
    requires k <= |values|
    decreases |values| - k
  {
    if k == |values| then None
    else if IsBlank(values[k]) then Some(Blank)
    else if values[k] in values[..k] then Some(Duplicate)
    else ListError(values, k + 1)
  }

  method RejectDuplicates(values: Option<seq<string>>) returns (r: Option<SnapshotError>)
    ensures r == if values.None? then None else ListError(values.value, 0)
  {
    if values.None? {
      return None;
    }
    var seen: set<string> := {};
    var k := 0;
    while k < |values.value|
      invariant 0 <= k <= |values.value|
      invariant seen == set v | v in values.value[..k]
      invariant ListError(values.value, 0) == ListError(values.value, k)
    {
      var value := values.value[k];
      if IsBlank(value) {
        return Some(Blank);
      }
      if value in seen {
        return Some(Duplicate);
      }
      seen := seen + {value};
      assert values.value[..k + 1] == values.value[..k] + [value];
      k := k + 1;
    }
    r := None;
  }

  /** Nothing is wrong exactly when no value is blank and none is repeated. */
  lemma {:induction false} ListIsFineWhenDistinct(values: seq<string>, k: nat)
    requires k <= |values|
    ensures ListError(values, k).None? <==>
      forall i :: k <= i < |values| ==> !IsBlank(values[i]) && values[i] !in values[..i]
    decreases |values| - k
  {
    if k < |values| { ListIsFineWhenDistinct(values, k + 1); }
  }

  function ExpectationError(records: seq<RecordExpectation>, k: nat): Option<SnapshotError>
    requires k <= |records|
    decreases |records| - k
  {
    if k == |records| then None
    else if IsBlank(records[k].schemaId) || IsBlank(records[k].recordKey) then Some(Blank)
    else if RequestedBefore(records, k) then Some(Duplicate)
    else ExpectationError(records, k + 1)
  }

  function RequestedIdentity(r: RecordExpectation): Identity {
    (r.schemaId, r.recordKey)
  }

  predicate RequestedBefore(records: seq<RecordExpectation>, k: nat)
    requires k < |records|
  {
    exists j :: 0 <= j < k && RequestedIdentity(records[j]) == RequestedIdentity(records[k])
  }

  function ExpectationsOf(records: seq<RecordExpectation>): map<Identity, SourceExpectation> {
    if records == [] then map[]
    else
      var last := records[|records| - 1];
      ExpectationsOf(records[..|records| - 1])[RequestedIdentity(last) := last.source]
  }

  function NewQuery(messageId: string, records: seq<RecordExpectation>): Result<Query, SnapshotError> {
    if IsBlank(messageId) then Err(Blank)
    else if records == [] then Err(NoRecordsRequested)
    else if ExpectationError(records, 0).Some? then Err(ExpectationError(records, 0).value)
    else Ok(Query(messageId, ExpectationsOf(records)))
  }

  lemma {:induction false} ExpectationsKeys(records: seq<RecordExpectation>, id: Identity)
    ensures id in ExpectationsOf(records) <==> exists j :: 0 <= j < |records| && RequestedIdentity(records[j]) == id
  {
    if records != [] {
      var n := |records| - 1;
      ExpectationsKeys(records[..n], id);
      if id in ExpectationsOf(records[..n]) {
        var j :| 0 <= j < n && RequestedIdentity(records[..n][j]) == id;
        assert RequestedIdentity(records[j]) == id;
      }
      if j :| 0 <= j < n && RequestedIdentity(records[j]) == id { assert RequestedIdentity(records[..n][j]) == id; }
    }
  }

  /** CultNetRawSnapshotQuery::new, inserting one expectation after the other. */
  method CreateQuery(messageId: string, records: seq<RecordExpectation>) returns (r: Result<Query, SnapshotError>)
    ensures r == NewQuery(messageId, records)
  {
    if IsBlank(messageId) {
      return Err(Blank);
    }
    if records == [] {
      return Err(NoRecordsRequested);
    }
    var expectations: map<Identity, SourceExpectation> := map[];
    var k := 0;
    while k < |records|
      invariant 0 <= k <= |records|
      invariant expectations == ExpectationsOf(records[..k])
      invariant ExpectationError(records, 0) == ExpectationError(records, k)
    {
      var record := records[k];
      if IsBlank(record.schemaId) || IsBlank(record.recordKey) {
        return Err(Blank);
      }
      var identity := (record.schemaId, record.recordKey);
      ExpectationsKeys(records[..k], identity);
      assert identity in expectations <==> RequestedBefore(records, k);
      if identity in expectations {
        return Err(Duplicate);
      }
      expectations := expectations[identity := record.source];
      assert records[..k + 1][..k] == records[..k];
      k := k + 1;
    }
    assert records[..k] == records;
    r := Ok(Query(messageId, expectations));
  }

  function SchemaIdsOf(q: Query): set<string> {
    set id | id in q.expectations.Keys :: id.0
  }

  function RecordKeysOf(q: Query): set<string> {
    set id | id in q.expectations.Keys :: id.1
  }

  lemma {:induction false} LeastString(s: set<string>) returns (x: string)
    requires s != {}
    ensures x in s && forall y :: y in s ==> AtMost(x, y)
    decreases |s|
  {
    x :| x in s;
    AtMostIsTotal(x, x);
    if s != {x} {
      var least := LeastString(s - {x});
      AtMostIsTotal(x, least);
      if AtMost(least, x) {
        x := least;
      } else {
        forall y | y in s ensures AtMost(x, y) {
          if y != x { AtMostIsTransitive(x, least, y); }
        }
      }
    }
  }

  ghost predicate IsLeast(x: string, s: set<string>) {
    x in s && forall y :: y in s ==> AtMost(x, y)
  }

  /** The elements of a set in increasing order, as a sorted set is listed. */
  ghost function Ascending(s: set<string>): (r: seq<string>)
    ensures forall x :: x in r <==> x in s
    ensures forall i, j :: 0 <= i < j < |r| ==> r[i] != r[j] && AtMost(r[i], r[j])
    decreases |s|
  {
    if s == {} then []
    else
      assert exists x :: IsLeast(x, s) by { var x := LeastString(s); assert IsLeast(x, s); }
      var x :| IsLeast(x, s);
      [x] + Ascending(s - {x})
  }

  ghost function Request(q: Query): Message {
    SnapshotRequest(q.messageId, Some(Ascending(SchemaIdsOf(q))), Some(Ascending(RecordKeysOf(q))))
  }

  // ---- Serving

  predicate Requested(names: Option<seq<string>>, name: string) {
    names.None? || name in names.value
  }

  /** What one request may see of one source record. */
  predicate Selected(allowed: set<Identity>, schemaIds: Option<seq<string>>, recordKeys: Option<seq<string>>,
                     d: RawDocument) {
    IdentityOf(d) in allowed && Requested(schemaIds, d.schemaId) && Requested(recordKeys, d.recordKey)
  }

  predicate SeenBefore(docs: seq<RawDocument>, k: nat)
    requires k < |docs|
  {
    exists j :: 0 <= j < k && IdentityOf(docs[j]) == IdentityOf(docs[k])
  }

  /** The first thing wrong with the source, from record k on. */
  function SourceError(registered: set<string>, docs: seq<RawDocument>, k: nat): Option<SnapshotError>
    requires k <= |docs|
    decreases |docs| - k
  {
    if k == |docs| then None
    else if SeenBefore(docs, k) then Some(DuplicateSourceRecord(IdentityOf(docs[k])))
    else if docs[k].schemaId !in registered then Some(UnregisteredSchema(IdentityOf(docs[k])))
    else SourceError(registered, docs, k + 1)
  }

  function Selection(docs: seq<RawDocument>, allowed: set<Identity>, schemaIds: Option<seq<string>>,
                     recordKeys: Option<seq<string>>): seq<RawDocument>
  {
    if docs == [] then []
    else
      var last := docs[|docs| - 1];
      Selection(docs[..|docs| - 1], allowed, schemaIds, recordKeys)
        + if Selected(allowed, schemaIds, recordKeys, last) then [last] else []
  }

  function NamesError(values: Option<seq<string>>): Option<SnapshotError> {
    if values.None? then None else ListError(values.value, 0)
  }

  /** The server: registered is the set of schema ids the runtime knows, allowed the policy's records. */
  function Serve(registered: set<string>, allowed: set<Identity>, source: Option<seq<RawDocument>>, request: Message)
    : Result<Message, SnapshotError>
  {
    if !request.SnapshotRequest? then Err(WrongMessage)
    else if IsBlank(request.messageId) then Err(Blank)
    else if NamesError(request.schemaIds).Some? then Err(NamesError(request.schemaIds).value)
    else if NamesError(request.recordKeys).Some? then Err(NamesError(request.recordKeys).value)
    else if source.None? then Err(SourceFailed)
    else if SourceError(registered, source.value, 0).Some? then Err(SourceError(registered, source.value, 0).value)
    else Ok(SnapshotResponseRaw(request.messageId,
                                Selection(source.value, allowed, request.schemaIds, request.recordKeys)))
  }

  /** serve_read_only_raw_snapshot, going through the source record by record. */
  method ServeReadOnlyRawSnapshot(registered: set<string>, policy: ReadOnlySnapshotPolicy,
                                  source: Option<seq<RawDocument>>, request: Message)
    returns (r: Result<Message, SnapshotError>)
    ensures r == Serve(registered, policy.allowedRecords, source, request)
  {
    if !request.SnapshotRequest? {
      return Err(WrongMessage);
    }
    if IsBlank(request.messageId) {
      return Err(Blank);
    }
    var schemaError := RejectDuplicates(request.schemaIds);
    if schemaError.Some? {
      return Err(schemaError.value);
    }
    var keyError := RejectDuplicates(request.recordKeys);
    if keyError.Some? {
      return Err(keyError.value);
    }
    if source.None? {
      return Err(SourceFailed);
    }
    var docs := source.value;
    var selected: seq<RawDocument> := [];
    var seen: set<Identity> := {};
    var k := 0;
    while k < |docs|
      invariant 0 <= k <= |docs|
      invariant seen == set j | 0 <= j < k :: IdentityOf(docs[j])
      invariant SourceError(registered, docs, 0) == SourceError(registered, docs, k)
      invariant selected == Selection(docs[..k], policy.allowedRecords, request.schemaIds, request.recordKeys)
    {
      var document := docs[k];
      var identity := IdentityOf(document);
      assert identity in seen <==> SeenBefore(docs, k);
      if identity in seen {
        return Err(DuplicateSourceRecord(identity));
      }
      seen := seen + {identity};
      if document.schemaId !in registered {
        return Err(UnregisteredSchema(identity));
      }
      assert docs[..k + 1][..k] == docs[..k];
      if Selected(policy.allowedRecords, request.schemaIds, request.recordKeys, document) {
        selected := selected + [document];
      }
      k := k + 1;
    }
    assert docs[..k] == docs;
    r := Ok(SnapshotResponseRaw(request.messageId, selected));
  }

  // ---- Checking the answer

  predicate MatchesIfExpected<T(==)>(expected: Option<T>, actual: Option<T>) {
    expected.Some? ==> actual == expected
  }

  predicate MetadataMatches(expected: SourceExpectation, d: RawDocument) {
    && MatchesIfExpected(expected.runtimeId, d.sourceRuntimeId)
    && MatchesIfExpected(expected.agentId, d.sourceAgentId)
    && MatchesIfExpected(expected.role, d.sourceRole)
    && MatchesIfExpected(expected.tags, d.tags)
  }

  /** The first thing wrong with a response's records, from record k on. */
  function ResponseError(q: Query, docs: seq<RawDocument>, k: nat): Option<SnapshotError>
    requires k <= |docs|
    decreases |docs| - k
  {
    if k == |docs| then None
    else if SeenBefore(docs, k) then Some(DuplicateResponseRecord(IdentityOf(docs[k])))
    else if IdentityOf(docs[k]) !in q.expectations then Some(UnexpectedRecord(IdentityOf(docs[k])))
    else if !MetadataMatches(q.expectations[IdentityOf(docs[k])], docs[k]) then
      Some(UnexpectedMetadata(IdentityOf(docs[k])))
    else ResponseError(q, docs, k + 1)
  }

  function Accept(q: Query, response: Message): Result<seq<RawDocument>, SnapshotError> {
    if !response.SnapshotResponseRaw? then Err(WrongMessage)
    else if response.messageId != q.messageId then Err(WrongMessageId)
    else if ResponseError(q, response.documents, 0).Some? then Err(ResponseError(q, response.documents, 0).value)
    else Ok(response.documents)
  }

  /** accept_response, checking record by record. */
  method AcceptResponse(q: Query, response: Message) returns (r: Result<seq<RawDocument>, SnapshotError>)
    ensures r == Accept(q, response)
  {
    if !response.SnapshotResponseRaw? {
      return Err(WrongMessage);
    }
    if response.messageId != q.messageId {
      return Err(WrongMessageId);
    }
    var docs := response.documents;
    var seen: set<Identity> := {};
    var k := 0;
    while k < |docs|
      invariant 0 <= k <= |docs|
      invariant seen == set j | 0 <= j < k :: IdentityOf(docs[j])
      invariant ResponseError(q, docs, 0) == ResponseError(q, docs, k)
    {
      var identity := IdentityOf(docs[k]);
      assert identity in seen <==> SeenBefore(docs, k);
      if identity in seen {
        return Err(DuplicateResponseRecord(identity));
      }
      seen := seen + {identity};
      if identity !in q.expectations {
        return Err(UnexpectedRecord(identity));
      }
      if !MetadataMatches(q.expectations[identity], docs[k]) {
        return Err(UnexpectedMetadata(identity));
      }
      k := k + 1;
    }
    r := Ok(docs);
  }

  /** query_read_only_raw_snapshot: ask, exchange, check. */
  ghost function Ask(q: Query,
                     exchange: Message -> Result<Message, SnapshotError>): Result<seq<RawDocument>, SnapshotError> {
    var response := exchange(Request(q));
    if response.Err? then Err(response.error) else Accept(q, response.value)
  }

  // ---- The round trip

  /** What every query built by NewQuery is like. */
  predicate ValidQuery(q: Query) {
    && !IsBlank(q.messageId)
    && q.expectations != map[]
    && forall id :: id in q.expectations ==> !IsBlank(id.0) && !IsBlank(id.1)
  }

  lemma {:induction false} NoErrorMeansDistinct(records: seq<RecordExpectation>, k: nat)
    requires k <= |records|
    ensures ExpectationError(records, k).None? <==>
      forall i :: k <= i < |records| ==>
        !IsBlank(records[i].schemaId) && !IsBlank(records[i].recordKey) && !RequestedBefore(records, i)
    decreases |records| - k
  {
    if k < |records| { NoErrorMeansDistinct(records, k + 1); }
  }

  lemma {:induction false} ExpectationsAt(records: seq<RecordExpectation>, n: nat, i: nat)
    requires i < n <= |records| && forall k :: 0 <= k < |records| ==> !RequestedBefore(records, k)
    ensures var m := ExpectationsOf(records[..n]);
      RequestedIdentity(records[i]) in m && m[RequestedIdentity(records[i])] == records[i].source
  {
    assert records[..n][..n - 1] == records[..n - 1];
    if i < n - 1 {
      ExpectationsAt(records, n - 1, i);
      assert !RequestedBefore(records, n - 1);
    }
  }

  /** A query is built exactly from an identified, non-empty list of distinct named records, and expects precisely
      them. */
  lemma NewQueryExpectsTheRecords(messageId: string, records: seq<RecordExpectation>)
    ensures NewQuery(messageId, records).Ok? <==>
      && !IsBlank(messageId) && records != []
      && (forall i :: 0 <= i < |records| ==> !IsBlank(records[i].schemaId) && !IsBlank(records[i].recordKey))
      && (forall i :: 0 <= i < |records| ==> !RequestedBefore(records, i))
    ensures NewQuery(messageId, records).Ok? ==>
      var q := NewQuery(messageId, records).value;
      && ValidQuery(q) && q.messageId == messageId
      && (forall i :: 0 <= i < |records| ==>
            RequestedIdentity(records[i]) in q.expectations
            && q.expectations[RequestedIdentity(records[i])] == records[i].source)
      && (forall id :: id in q.expectations ==> exists i :: 0 <= i < |records| && RequestedIdentity(records[i]) == id)
  {
    NoErrorMeansDistinct(records, 0);
    if NewQuery(messageId, records).Ok? {
      var q := NewQuery(messageId, records).value;
      assert records[..|records|] == records;
      forall i | 0 <= i < |records|
        ensures RequestedIdentity(records[i]) in q.expectations
        ensures q.expectations[RequestedIdentity(records[i])] == records[i].source
      {
        ExpectationsAt(records, |records|, i);
      }
      forall id | id in q.expectations ensures exists i :: 0 <= i < |records| && RequestedIdentity(records[i]) == id {
        ExpectationsKeys(records, id);
      }
      assert RequestedIdentity(records[0]) in q.expectations;
    }
  }

  /** The source is in order: every record has its own identity and a registered schema. */
  predicate SoundSource(registered: set<string>, docs: seq<RawDocument>) {
    && (forall i :: 0 <= i < |docs| ==> docs[i].schemaId in registered)
    && (forall i, j :: 0 <= i < j < |docs| ==> IdentityOf(docs[i]) != IdentityOf(docs[j]))
  }

  /** The policy and the schema-by-key cross product of the request let the record through. */
  predicate Visible(q: Query, allowed: set<Identity>, d: RawDocument) {
    IdentityOf(d) in allowed && d.schemaId in SchemaIdsOf(q) && d.recordKey in RecordKeysOf(q)
  }

  predicate Expects(q: Query, d: RawDocument) {
    IdentityOf(d) in q.expectations && MetadataMatches(q.expectations[IdentityOf(d)], d)
  }

  /** The source records in policy and expectations, unchanged and in source order. */
  function Granted(docs: seq<RawDocument>, allowed: set<Identity>, q: Query): seq<RawDocument> {
    if docs == [] then []
    else
      var last := docs[|docs| - 1];
      Granted(docs[..|docs| - 1], allowed, q)
        + if IdentityOf(last) in allowed && IdentityOf(last) in q.expectations then [last] else []
  }

  lemma VisibleIsSelected(q: Query, allowed: set<Identity>, d: RawDocument)
    ensures Selected(allowed, Request(q).schemaIds, Request(q).recordKeys, d) <==> Visible(q, allowed, d)
    ensures IdentityOf(d) in allowed && IdentityOf(d) in q.expectations ==> Visible(q, allowed, d)
  {
  }

  /** A selection holds exactly the visible records, each once. */
  lemma {:induction false} SelectionIsVisible(q: Query, allowed: set<Identity>, docs: seq<RawDocument>)
    requires forall i, j :: 0 <= i < j < |docs| ==> IdentityOf(docs[i]) != IdentityOf(docs[j])
    ensures var chosen := Selection(docs, allowed, Request(q).schemaIds, Request(q).recordKeys);
      && (forall d :: d in chosen <==> d in docs && Visible(q, allowed, d))
      && (forall i, j :: 0 <= i < j < |chosen| ==> IdentityOf(chosen[i]) != IdentityOf(chosen[j]))
  {
    hide Ascending, Visible;
    if docs != [] {
      var n := |docs| - 1;
      var before := Selection(docs[..n], allowed, Request(q).schemaIds, Request(q).recordKeys);
      SelectionIsVisible(q, allowed, docs[..n]);
      VisibleIsSelected(q, allowed, docs[n]);
      hide Selected, Request;
      assert docs == docs[..n] + [docs[n]];
      forall d | d in before ensures IdentityOf(d) != IdentityOf(docs[n]) {
        assert d in docs[..n];
      }
    }
  }

  lemma {:induction false} SelectionIsGranted(q: Query, allowed: set<Identity>, docs: seq<RawDocument>)
    requires forall d :: d in docs && Visible(q, allowed, d) ==> Expects(q, d)
    ensures Selection(docs, allowed, Request(q).schemaIds, Request(q).recordKeys) == Granted(docs, allowed, q)
  {
    hide Ascending, Visible, MetadataMatches;
    if docs != [] {
      var n := |docs| - 1;
      SelectionIsGranted(q, allowed, docs[..n]);
      VisibleIsSelected(q, allowed, docs[n]);
      hide Selected, Request;
    }
  }

  lemma {:induction false} ResponseIsFineWhenExpected(q: Query, docs: seq<RawDocument>, k: nat)
    requires k <= |docs| && forall i, j :: 0 <= i < j < |docs| ==> IdentityOf(docs[i]) != IdentityOf(docs[j])
    ensures ResponseError(q, docs, k).None? <==> forall i :: k <= i < |docs| ==> Expects(q, docs[i])
    decreases |docs| - k
  {
    if k < |docs| { ResponseIsFineWhenExpected(q, docs, k + 1); }
  }

  lemma {:induction false} FirstSourceError(registered: set<string>, docs: seq<RawDocument>, k: nat)
    requires k <= |docs|
    ensures SourceError(registered, docs, k).None? <==>
      forall i :: k <= i < |docs| ==> docs[i].schemaId in registered && !SeenBefore(docs, i)
    decreases |docs| - k
  {
    if k < |docs| { FirstSourceError(registered, docs, k + 1); }
  }

  lemma NamesAreFine(names: seq<string>)
    requires forall i, j :: 0 <= i < j < |names| ==> names[i] != names[j]
    requires forall x :: x in names ==> !IsBlank(x)
    ensures ListError(names, 0).None?
  {
    hide IsBlank;
    ListIsFineWhenDistinct(names, 0);
  }

  /** A valid query is served exactly when the source is sound, whatever is asked and allowed. */
  lemma ServedExactlyWhenSound(q: Query, registered: set<string>, allowed: set<Identity>, docs: seq<RawDocument>)
    requires ValidQuery(q)
    ensures Serve(registered, allowed, Some(docs), Request(q)).Ok? <==> SoundSource(registered, docs)
  {
    FirstSourceError(registered, docs, 0);
    NamesAreFine(Ascending(SchemaIdsOf(q)));
    NamesAreFine(Ascending(RecordKeysOf(q)));
    hide Selection, ListError, IsBlank, SourceError, SchemaIdsOf, RecordKeysOf;
    assert SoundSource(registered, docs) ==> forall i :: 0 <= i < |docs| ==> !SeenBefore(docs, i);
    if forall i :: 0 <= i < |docs| ==> !SeenBefore(docs, i) {
      forall i, j | 0 <= i < j < |docs| ensures IdentityOf(docs[i]) != IdentityOf(docs[j]) {
        assert !SeenBefore(docs, j);
      }
    }
  }

  lemma RequestIsServed(q: Query, registered: set<string>, allowed: set<Identity>, docs: seq<RawDocument>)
    requires ValidQuery(q) && SoundSource(registered, docs)
    ensures Serve(registered, allowed, Some(docs), Request(q))
      == Ok(SnapshotResponseRaw(q.messageId, Selection(docs, allowed, Request(q).schemaIds, Request(q).recordKeys)))
  {
    ServedExactlyWhenSound(q, registered, allowed, docs);
  }

  /** The round trip, characterised: against a sound source, a valid query is always served, and the answer is accepted
      exactly when every record the policy and the requested cross product let through is expected with matching
      metadata. It then consists of exactly the source records in policy and expectations, unchanged and in source
      order. */
  lemma SnapshotRoundTrip(q: Query, registered: set<string>, allowed: set<Identity>, docs: seq<RawDocument>)
    requires ValidQuery(q) && SoundSource(registered, docs)
    ensures var answer := Ask(q, m => Serve(registered, allowed, Some(docs), m));
      && (answer.Ok? <==> forall d :: d in docs && Visible(q, allowed, d) ==> Expects(q, d))
      && (answer.Ok? ==> answer.value == Granted(docs, allowed, q))
  {
    hide Visible, Expects, Selection, Serve, ResponseError, Granted, Ascending, ValidQuery;
    RequestIsServed(q, registered, allowed, docs);
    SelectionIsVisible(q, allowed, docs);
    var chosen := Selection(docs, allowed, Request(q).schemaIds, Request(q).recordKeys);
    ResponseIsFineWhenExpected(q, chosen, 0);
    hide SoundSource, Request;
    if forall d :: d in docs && Visible(q, allowed, d) ==> Expects(q, d) {
      SelectionIsGranted(q, allowed, docs);
    }
    assert (forall i :: 0 <= i < |chosen| ==> Expects(q, chosen[i])) <==> forall d :: d in chosen ==> Expects(q, d);
  }

  // ---- What is listed, served and accepted, for any messages

  /** The requested names are listed in lexicographic order, by code points. */
  lemma NamesAreListedInOrder(s: set<string>)
    ensures forall i, j :: 0 <= i < j < |Ascending(s)| ==> ComesBefore(Ascending(s)[i], Ascending(s)[j])
  {
    hide ComesBefore, AtMost;
    forall i, j | 0 <= i < j < |Ascending(s)| ensures ComesBefore(Ascending(s)[i], Ascending(s)[j]) {
      AtMostIsLexicographic(Ascending(s)[i], Ascending(s)[j]);
    }
  }

  /** Names that may be asked for: none blank, none twice. */
  predicate AreNames(values: Option<seq<string>>) {
    values.Some? ==>
      && (forall i :: 0 <= i < |values.value| ==> !IsBlank(values.value[i]))
      && forall i, j :: 0 <= i < j < |values.value| ==> values.value[i] != values.value[j]
  }

  lemma NamesAreCheckedExactly(values: Option<seq<string>>)
    ensures NamesError(values).None? <==> AreNames(values)
  {
    hide IsBlank;
    if values.Some? {
      ListIsFineWhenDistinct(values.value, 0);
      if NamesError(values).None? {
        forall i, j | 0 <= i < j < |values.value| ensures values.value[i] != values.value[j] {
          assert values.value[j] !in values.value[..j] && values.value[..j][i] == values.value[i];
        }
      }
    }
  }

  predicate AllApart(docs: seq<RawDocument>) {
    forall i, j :: 0 <= i < j < |docs| ==>
      docs[i].schemaId != docs[j].schemaId || docs[i].recordKey != docs[j].recordKey
  }

  lemma ApartIsUnseen(docs: seq<RawDocument>)
    ensures AllApart(docs) <==> forall i :: 0 <= i < |docs| ==> !SeenBefore(docs, i)
    ensures AllApart(docs) <==> forall i, j :: 0 <= i < j < |docs| ==> IdentityOf(docs[i]) != IdentityOf(docs[j])
  {
    if forall i :: 0 <= i < |docs| ==> !SeenBefore(docs, i) {
      forall i, j | 0 <= i < j < |docs| ensures IdentityOf(docs[i]) != IdentityOf(docs[j]) {
        assert !SeenBefore(docs, j);
      }
    }
  }

  /** A record that policy and request let through. */
  predicate MayBeSeen(allowed: set<Identity>, schemaIds: Option<seq<string>>, recordKeys: Option<seq<string>>,
                      d: RawDocument) {
    && (d.schemaId, d.recordKey) in allowed
    && (schemaIds.Some? ==> d.schemaId in schemaIds.value)
    && (recordKeys.Some? ==> d.recordKey in recordKeys.value)
  }

  /** chosen are the records of docs that may be seen, each from its own place, in the order of the places. */
  ghost predicate AreThoseSeen(chosen: seq<RawDocument>, docs: seq<RawDocument>, seen: RawDocument -> bool,
                               places: seq<nat>) {
    ComeFrom(chosen, docs, places) && Rising(places) && HoldExactly(docs, seen, places)
  }

  ghost predicate ComeFrom(chosen: seq<RawDocument>, docs: seq<RawDocument>, places: seq<nat>) {
    |places| == |chosen| && forall i :: 0 <= i < |places| ==> places[i] < |docs| && chosen[i] == docs[places[i]]
  }

  ghost predicate Rising(places: seq<nat>) {
    forall i, j :: 0 <= i < j < |places| ==> places[i] < places[j]
  }

  ghost predicate HoldExactly(docs: seq<RawDocument>, seen: RawDocument -> bool, places: seq<nat>) {
    forall k: nat :: k < |docs| ==> (k in places <==> seen(docs[k]))
  }

  /** What the selection lists. */
  lemma {:induction false} SelectionIsSeen(docs: seq<RawDocument>, allowed: set<Identity>,
                                           schemaIds: Option<seq<string>>, recordKeys: Option<seq<string>>)
    returns (places: seq<nat>)
    ensures AreThoseSeen(Selection(docs, allowed, schemaIds, recordKeys), docs,
                         d => MayBeSeen(allowed, schemaIds, recordKeys, d), places)
  {
    hide MayBeSeen, Selected, AreThoseSeen;
    var seen := d => MayBeSeen(allowed, schemaIds, recordKeys, d);
    places := [];
    if docs == [] {
      NothingSeen(seen);
    } else {
      var n := |docs| - 1;
      var chosen := Selection(docs[..n], allowed, schemaIds, recordKeys);
      var before := SelectionIsSeen(docs[..n], allowed, schemaIds, recordKeys);
      SelectedMayBeSeen(allowed, schemaIds, recordKeys, docs[n]);
      assert docs == docs[..n] + [docs[n]] && chosen + [] == chosen;
      if seen(docs[n]) {
        OneMoreSeen(chosen, docs[..n], docs[n], seen, before);
        places := before + [n];
      } else {
        OneMoreUnseen(chosen, docs[..n], docs[n], seen, before);
        places := before;
      }
    }
  }

  lemma NothingSeen(seen: RawDocument -> bool)
    ensures AreThoseSeen([], [], seen, [])
  {
  }

  lemma SelectedMayBeSeen(allowed: set<Identity>, schemaIds: Option<seq<string>>, recordKeys: Option<seq<string>>,
                          d: RawDocument)
    ensures Selected(allowed, schemaIds, recordKeys, d) <==> MayBeSeen(allowed, schemaIds, recordKeys, d)
  {
  }

  lemma OneMoreSeen(chosen: seq<RawDocument>, docs: seq<RawDocument>, d: RawDocument, seen: RawDocument -> bool,
                    places: seq<nat>)
    requires AreThoseSeen(chosen, docs, seen, places) && seen(d)
    ensures AreThoseSeen(chosen + [d], docs + [d], seen, places + [|docs|])
  {
    var all, more := docs + [d], places + [|docs|];
    assert ComeFrom(chosen + [d], all, more);
    forall i, j | 0 <= i < j < |more| ensures more[i] < more[j] {
      if j == |places| { assert places[i] < |docs|; }
    }
    forall k: nat | k < |all| ensures k in more <==> seen(all[k]) {
      if k < |docs| { assert all[k] == docs[k] && (k in more <==> k in places); }
    }
  }

  lemma OneMoreUnseen(chosen: seq<RawDocument>, docs: seq<RawDocument>, d: RawDocument, seen: RawDocument -> bool,
                      places: seq<nat>)
    requires AreThoseSeen(chosen, docs, seen, places) && !seen(d)
    ensures AreThoseSeen(chosen, docs + [d], seen, places)
  {
    var all := docs + [d];
    assert ComeFrom(chosen, all, places);
    assert forall i :: 0 <= i < |places| ==> places[i] != |docs|;
    assert |docs| !in places;
    forall k: nat | k < |all| ensures k in places <==> seen(all[k]) {
      if k < |docs| { assert all[k] == docs[k]; }
    }
  }

  /** A request is served exactly if it is one, is identified, names nothing blank or twice, and the source can be read
      and is sound. It is answered under its own id with the records that may be seen, in source order. */
  lemma ServesExactly(registered: set<string>, allowed: set<Identity>, source: Option<seq<RawDocument>>,
                      request: Message) returns (places: seq<nat>)
    ensures var r := Serve(registered, allowed, source, request);
      r.Ok? <==>
        && request.SnapshotRequest? && !IsBlank(request.messageId)
        && AreNames(request.schemaIds) && AreNames(request.recordKeys)
        && source.Some? && AllApart(source.value)
        && forall i :: 0 <= i < |source.value| ==> source.value[i].schemaId in registered
    ensures var r := Serve(registered, allowed, source, request);
      r.Ok? ==>
        && r.value.SnapshotResponseRaw? && r.value.messageId == request.messageId
        && AreThoseSeen(r.value.documents, source.value,
                        d => MayBeSeen(allowed, request.schemaIds, request.recordKeys, d), places)
  {
    places := [];
    hide Selection, IsBlank, NamesError, AreNames, AllApart, SourceError, AreThoseSeen;
    if request.SnapshotRequest? {
      NamesAreCheckedExactly(request.schemaIds);
      NamesAreCheckedExactly(request.recordKeys);
      if source.Some? {
        FirstSourceError(registered, source.value, 0);
        ApartIsUnseen(source.value);
        places := SelectionIsSeen(source.value, allowed, request.schemaIds, request.recordKeys);
      }
    }
  }

  /** What an expectation says of a record, field by field: what it names must be there, and the same. */
  predicate Agrees(expected: SourceExpectation, d: RawDocument) {
    && (expected.runtimeId.Some? ==> d.sourceRuntimeId == expected.runtimeId)
    && (expected.agentId.Some? ==> d.sourceAgentId == expected.agentId)
    && (expected.role.Some? ==> d.sourceRole == expected.role)
    && (expected.tags.Some? ==> d.tags == expected.tags)
  }

  /** A response is accepted exactly if it is one, carries the query's id, repeats no record, and every record is
      expected with metadata that agrees; it is then returned as it is. */
  lemma AcceptsExactly(q: Query, response: Message)
    ensures Accept(q, response).Ok? <==>
      && response.SnapshotResponseRaw? && response.messageId == q.messageId
      && AllApart(response.documents)
      && forall i :: 0 <= i < |response.documents| ==>
           var d := response.documents[i];
           (d.schemaId, d.recordKey) in q.expectations && Agrees(q.expectations[(d.schemaId, d.recordKey)], d)
    ensures Accept(q, response).Ok? ==> Accept(q, response).value == response.documents
  {
    if response.SnapshotResponseRaw? {
      var docs := response.documents;
      ApartIsUnseen(docs);
      hide AllApart;
      if AllApart(docs) {
        ResponseIsFineWhenExpected(q, docs, 0);
      } else {
        RepeatedIsRejected(q, docs, 0);
      }
    }
  }

  lemma {:induction false} RepeatedIsRejected(q: Query, docs: seq<RawDocument>, k: nat)
    requires k <= |docs| && exists i :: k <= i < |docs| && SeenBefore(docs, i)
    ensures ResponseError(q, docs, k).Some?
    decreases |docs| - k
  {
    if k < |docs| && !SeenBefore(docs, k) { RepeatedIsRejected(q, docs, k + 1); }
  }
}
