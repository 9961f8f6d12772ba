/**
 * The change-stream consumer of the dynamo-streams variant: every INSERT or
 * MODIFY record's new image is converted from the table's typed wire format
 * to a plain document and routed to the queue for its status. An exception
 * raised while reading a record ends the batch with status 500; messages
 * already sent stay sent.
 */
module StreamHandler {
  import opened Basics
  import opened WorkOrders
  import opened Routing
  import opened Services

  /** A typed attribute value as the stream delivers it: tag/value pairs such as `{"S": "x"}`, in order. */
  type TagMap = seq<(string, Scalar)>

  /** A `NewImage`: attribute name to typed value. */
  type Image = map<string, TagMap>

  /** `record["dynamodb"]`, whose `NewImage` may be absent. */
  datatype ChangeData = ChangeData(newImage: Option<Image>)

  /** A stream record; either key may be missing. */
  datatype StreamRecord = StreamRecord(eventName: Option<string>, change: Option<ChangeData>)

  /** The Lambda event; `Records` may be missing. */
  datatype StreamEvent = StreamEvent(records: Option<seq<StreamRecord>>)

  datatype BatchResponse = BatchResponse(statusCode: int, body: string)

  /** `str(e)` of the IndexError raised by `list(value.values())[0]` on an empty typed value. */
  const IndexErrorText := "list index out of range"
  const ProcessedText := "Processed successfully"

  /** `convert_dynamodb_item`: each attribute takes the first value of its typed form. */
  function ConvertItem(item: Image): (r: Result<Document, string>)
    ensures r.Success? <==> forall k :: k in item ==> item[k] != []
    ensures r.Success? ==> r.value.Keys == item.Keys
    ensures r.Success? ==> forall k :: k in item ==> r.value[k] == item[k][0].1
    ensures r.Failure? ==> r.error == IndexErrorText
  {
    if exists k :: k in item && item[k] == [] then Failure(IndexErrorText)
    else Success(map k | k in item :: item[k][0].1)
  }

  /** How the table writes a scalar into the stream: strings as `S`, booleans as `BOOL`, null as `NULL: true`. */
  function EncodeAttribute(v: Scalar): TagMap {
    match v
    case Text(t) => [("S", Text(t))]
    case Flag(b) => [("BOOL", Flag(b))]
    case Nil => [("NULL", Flag(true))]
  }

  function EncodeItem(doc: Document): Image {
    map k | k in doc :: EncodeAttribute(doc[k])
  }

  /** What one record contributes: nothing, a document to send, or the exception that ends the batch. */
  datatype Step = Skip | Forward(doc: Document) | Abort(error: string)

  /** `record["eventName"] in ["INSERT", "MODIFY"]`. */
  predicate IsChange(r: StreamRecord) {
    r.eventName == Some("INSERT") || r.eventName == Some("MODIFY")
  }

  /**
   * The body of the loop for one record: a missing key raises a KeyError whose
   * text is the quoted key; events other than INSERT and MODIFY are passed over.
   */
  function RecordStep(r: StreamRecord): (s: Step)
    ensures r.eventName.None? ==> s == Abort("'eventName'")
    ensures s.Skip? <==> r.eventName.Some? && !IsChange(r)
    ensures IsChange(r) && r.change.None? ==> s == Abort("'dynamodb'")
    ensures IsChange(r) && r.change.Some? && r.change.value.newImage.None? ==> s == Abort("'NewImage'")
    ensures IsChange(r) && r.change.Some? && r.change.value.newImage.Some? ==>
      var c := ConvertItem(r.change.value.newImage.value);
      s == (if c.Success? then Forward(c.value) else Abort(IndexErrorText))
    ensures s.Abort? <==>
      r.eventName.None?
      || (IsChange(r) && (r.change.None? || r.change.value.newImage.None?
                          || ConvertItem(r.change.value.newImage.value).Failure?))
    ensures s.Forward? <==>
      IsChange(r) && r.change.Some? && r.change.value.newImage.Some?
      && ConvertItem(r.change.value.newImage.value).Success?
    ensures s.Forward? ==>
      r.change.Some? && r.change.value.newImage.Some? && ConvertItem(r.change.value.newImage.value) == Success(s.doc)
  {
    if r.eventName.None? then Abort("'eventName'")
    else if r.eventName.value != "INSERT" && r.eventName.value != "MODIFY" then Skip
    else if r.change.None? then Abort("'dynamodb'")
    else if r.change.value.newImage.None? then Abort("'NewImage'")
    else
      match ConvertItem(r.change.value.newImage.value)
      case Failure(e) => Abort(e)
      case Success(doc) => Forward(doc)
  }

  /** The failure the queue service reports for the send of record `i`, if any. */
  function ClientErrorAt(clientErrors: map<nat, string>, i: nat): Option<string> {
    if i in clientErrors then Some(clientErrors[i]) else None
  }

  /** Where the loop stands after some records: what was sent, and the exception, if one ended it. */
  datatype BatchRun = BatchRun(sent: seq<Envelope>, aborted: Option<string>)

  /** What record `i` does to a run that has not raised. */
  function Advance(prev: BatchRun, step: Step, cfg: QueueConfig, clientErrors: map<nat, string>, i: nat): BatchRun {
    match step
    case Skip => prev
    case Abort(e) => BatchRun(prev.sent, Some(e))
    case Forward(doc) => BatchRun(prev.sent + Emitted(QueueDelivery(doc, cfg, ClientErrorAt(clientErrors, i))), None)
  }

  /** The loop over `records` in order, a record at a time; nothing runs after an exception. */
  function Run(records: seq<StreamRecord>, cfg: QueueConfig, clientErrors: map<nat, string>): (run: BatchRun)
    ensures |run.sent| <= |records|
    decreases |records|
  {
    if records == [] then BatchRun([], None)
    else
      var last := |records| - 1;
      var prev := Run(records[..last], cfg, clientErrors);
      if prev.aborted.Some? then prev else Advance(prev, RecordStep(records[last]), cfg, clientErrors, last)
  }

  /** The handler's reply once the loop has run. */
  function BatchReply(run: BatchRun): BatchResponse {
    if run.aborted.Some? then BatchResponse(500, run.aborted.value) else BatchResponse(200, ProcessedText)
  }

  /** One more record, on a prefix that has not raised. */
  lemma RunStep(records: seq<StreamRecord>, i: nat, cfg: QueueConfig, clientErrors: map<nat, string>)
    requires i < |records|
    requires Run(records[..i], cfg, clientErrors).aborted.None?
    ensures Run(records[..i + 1], cfg, clientErrors)
         == Advance(Run(records[..i], cfg, clientErrors), RecordStep(records[i]), cfg, clientErrors, i)
  {
    assert records[..i + 1][..i] == records[..i];
  }

  /** Once a prefix has raised, the remaining records change nothing. */
  lemma {:induction false} AbortSticks(records: seq<StreamRecord>, k: nat, cfg: QueueConfig, clientErrors: map<nat, string>)
    requires k <= |records|
    requires Run(records[..k], cfg, clientErrors).aborted.Some?
    ensures Run(records, cfg, clientErrors) == Run(records[..k], cfg, clientErrors)
    decreases |records| - k
  {
    if k < |records| {
      assert records[..k + 1][..k] == records[..k];
      AbortSticks(records, k + 1, cfg, clientErrors);
    } else {
      assert records[..k] == records;
    }
  }

  /**
   * `lambda_handler`: walks the records in order. `clientErrors` holds, by
   * record position, the failures the queue service reports.
   */
  method ProcessStream(backend: Backend, event: StreamEvent, cfg: QueueConfig, clientErrors: map<nat, string>)
    returns (resp: BatchResponse)
    modifies backend
    ensures event.records.None? ==> resp == BatchResponse(500, "'Records'") && backend.outbox == old(backend.outbox)
    ensures event.records.Some? ==> var run := Run(event.records.value, cfg, clientErrors);
      resp == BatchReply(run) && backend.outbox == old(backend.outbox) + run.sent
    ensures backend.store == old(backend.store)
  {
    if event.records.None? {
      return BatchResponse(500, "'Records'");
    }
    var records := event.records.value;
    var i := 0;
    while i < |records|
      invariant 0 <= i <= |records|
      invariant Run(records[..i], cfg, clientErrors).aborted.None?
      invariant backend.outbox == old(backend.outbox) + Run(records[..i], cfg, clientErrors).sent
      invariant backend.store == old(backend.store)
    {
      RunStep(records, i, cfg, clientErrors);
      match RecordStep(records[i]) {
        case Skip =>
        case Abort(e) =>
          AbortSticks(records, i + 1, cfg, clientErrors);
          return BatchResponse(500, e);
        case Forward(doc) =>
          SendToSqs(backend, doc, cfg, ClientErrorAt(clientErrors, i));
      }
      i := i + 1;
    }
    assert records[..i] == records;
    resp := BatchResponse(200, ProcessedText);
  }

  // ---------------------------------------------------------------------
  // Converting what the table wrote

  /**
   * Converting an encoded document restores every key and every non-null
   * value; a null comes back as `true`, so the round trip is exact exactly
   * when the document holds no null.
   */
  lemma ConvertEncoded(doc: Document)
    ensures ConvertItem(EncodeItem(doc)).Success?
    ensures ConvertItem(EncodeItem(doc)).value.Keys == doc.Keys
    ensures forall k :: k in doc ==>
      ConvertItem(EncodeItem(doc)).value[k] == (if doc[k].Nil? then Flag(true) else doc[k])
    ensures ConvertItem(EncodeItem(doc)) == Success(doc) <==> forall k :: k in doc ==> !doc[k].Nil?
  {
    var item := EncodeItem(doc);
    assert forall k :: k in item ==> item[k] != [];
    var r := ConvertItem(item);
    if forall k :: k in doc ==> !doc[k].Nil? {
      assert r.value == doc;
    }
  }

  /**
   * A stored work order reaches the stream consumer unchanged exactly when it
   * has a description and a cancellation reason: a missing one was stored as
   * null and arrives as `true`.
   */
  lemma WorkOrderImageRoundTrip(w: WorkOrder)
    ensures ConvertItem(EncodeItem(ToDocument(w))) == Success(ToDocument(w))
        <==> w.description.Some? && w.cancellationReason.Some?
  {
    var doc := ToDocument(w);
    ConvertEncoded(doc);
    if w.description.None? {
      assert doc["description"].Nil?;
    }
    if w.cancellationReason.None? {
      assert doc["cancellationReason"].Nil?;
    }
  }

  /**
   * The stream route sends a stored work order where the direct route would:
   * same decision, same queue, same group id and deduplication id.
   */
  lemma StreamRouteMatchesDirect(w: WorkOrder, cfg: QueueConfig, clientError: Option<string>)
    ensures var image := StreamRecord(Some("INSERT"), Some(ChangeData(Some(EncodeItem(ToDocument(w))))));
      var step := RecordStep(image);
      var direct := QueueDelivery(ToDocument(w), cfg, clientError);
      && step.Forward?
      && (QueueDelivery(step.doc, cfg, clientError).Delivered? <==> direct.Delivered?)
      && (direct.Delivered? ==>
            var e := QueueDelivery(step.doc, cfg, clientError).envelope;
            e.queueUrl == direct.envelope.queueUrl && e.groupId == direct.envelope.groupId
            && e.dedupId == direct.envelope.dedupId)
  {
    var doc := ToDocument(w);
    ConvertEncoded(doc);
    var converted := ConvertItem(EncodeItem(doc)).value;
    assert converted["status"] == doc["status"];
    assert converted["id"] == doc["id"];
  }

  // ---------------------------------------------------------------------
  // The batch as a whole

  /** A batch of records that are all passed over sends nothing and succeeds. */
  lemma {:induction false} SkippedBatchSendsNothing(records: seq<StreamRecord>, cfg: QueueConfig, clientErrors: map<nat, string>)
    requires forall i :: 0 <= i < |records| ==> RecordStep(records[i]).Skip?
    ensures Run(records, cfg, clientErrors) == BatchRun([], None)
    ensures BatchReply(Run(records, cfg, clientErrors)) == BatchResponse(200, ProcessedText)
  {
    if records != [] {
      var last := |records| - 1;
      SkippedBatchSendsNothing(records[..last], cfg, clientErrors);
      assert RecordStep(records[last]).Skip?;
    }
  }

  /** The batch raises exactly when some record does, and then with the first such record's error. */
  lemma {:induction false} AbortsIffSomeRecordAborts(records: seq<StreamRecord>, cfg: QueueConfig, clientErrors: map<nat, string>)
    ensures Run(records, cfg, clientErrors).aborted.None? <==> forall i :: 0 <= i < |records| ==> !RecordStep(records[i]).Abort?
    ensures Run(records, cfg, clientErrors).aborted.Some? ==>
      exists i :: 0 <= i < |records| && RecordStep(records[i]) == Abort(Run(records, cfg, clientErrors).aborted.value)
                && forall j :: 0 <= j < i ==> !RecordStep(records[j]).Abort?
  {
    if records != [] {
      var last := |records| - 1;
      var init := records[..last];
      AbortsIffSomeRecordAborts(init, cfg, clientErrors);
      assert forall i :: 0 <= i < last ==> init[i] == records[i];
      var prev := Run(init, cfg, clientErrors);
      if prev.aborted.Some? {
        var i :| 0 <= i < |init| && RecordStep(init[i]) == Abort(prev.aborted.value)
                 && forall j :: 0 <= j < i ==> !RecordStep(init[j]).Abort?;
        assert RecordStep(records[i]) == Abort(prev.aborted.value);
      } else if RecordStep(records[last]).Abort? {
        assert forall j :: 0 <= j < last ==> !RecordStep(records[j]).Abort?;
      }
    }
  }

  /** A document to send, with the position of the record it came from. */
  datatype Pending = Pending(pos: nat, doc: Document)

  /** The document record `i` forwards, paired with its position, if it forwards one. */
  function Contribution(r: StreamRecord, i: nat): seq<Pending> {
    match RecordStep(r)
    case Forward(doc) => [Pending(i, doc)]
    case _ => []
  }

  /** The documents of the INSERT and MODIFY records, each with its position, in stream order. */
  function Forwarded(records: seq<StreamRecord>): seq<Pending>
    decreases |records|
  {
    if records == [] then []
    else Forwarded(records[..|records| - 1]) + Contribution(records[|records| - 1], |records| - 1)
  }

  /** One send per document, failing exactly as the queue service fails for its record. */
  function Sends(docs: seq<Pending>, cfg: QueueConfig, clientErrors: map<nat, string>): seq<Envelope> {
    if docs == [] then []
    else Emitted(QueueDelivery(docs[0].doc, cfg, ClientErrorAt(clientErrors, docs[0].pos))) + Sends(docs[1..], cfg, clientErrors)
  }

  /**
   * A document is forwarded with position `i` exactly when record `i` is an
   * INSERT or MODIFY with that converted image; positions strictly increase.
   */
  lemma {:induction false} ForwardedExactly(records: seq<StreamRecord>)
    ensures forall i: nat, doc :: Pending(i, doc) in Forwarded(records) <==>
      i < |records| && RecordStep(records[i]) == Forward(doc)
    ensures forall a, b :: 0 <= a < b < |Forwarded(records)| ==> Forwarded(records)[a].pos < Forwarded(records)[b].pos
    ensures forall a :: 0 <= a < |Forwarded(records)| ==> Forwarded(records)[a].pos < |records|
    decreases |records|
  {
    if records != [] {
      var last := |records| - 1;
      var init := records[..last];
      ForwardedExactly(init);
      assert forall j :: 0 <= j < last ==> init[j] == records[j];
      var prev, tail := Forwarded(init), Contribution(records[last], last);
      assert Forwarded(records) == prev + tail;
      assert forall k :: 0 <= k < |tail| ==> tail[k].pos == last;
    }
  }

  lemma {:induction false} SendsAppend(a: seq<Pending>, b: seq<Pending>, cfg: QueueConfig, clientErrors: map<nat, string>)
    ensures Sends(a + b, cfg, clientErrors) == Sends(a, cfg, clientErrors) + Sends(b, cfg, clientErrors)
  {
    if a == [] {
      assert a + b == b;
    } else {
      assert (a + b)[0] == a[0] && (a + b)[1..] == a[1..] + b;
      SendsAppend(a[1..], b, cfg, clientErrors);
    }
  }

  /**
   * When every document's send is delivered, there is one message per
   * document, in order, each the envelope of that document's delivery.
   */
  lemma {:induction false} SendsOnePerDelivered(docs: seq<Pending>, cfg: QueueConfig, clientErrors: map<nat, string>)
    requires forall k :: 0 <= k < |docs| ==> QueueDelivery(docs[k].doc, cfg, ClientErrorAt(clientErrors, docs[k].pos)).Delivered?
    ensures |Sends(docs, cfg, clientErrors)| == |docs|
    ensures forall k :: 0 <= k < |docs| ==>
      Sends(docs, cfg, clientErrors)[k] == QueueDelivery(docs[k].doc, cfg, ClientErrorAt(clientErrors, docs[k].pos)).envelope
  {
    if docs != [] {
      var tail := docs[1..];
      assert forall k :: 0 <= k < |tail| ==> tail[k] == docs[k + 1];
      SendsOnePerDelivered(tail, cfg, clientErrors);
      var d := QueueDelivery(docs[0].doc, cfg, ClientErrorAt(clientErrors, docs[0].pos));
      var rest := Sends(tail, cfg, clientErrors);
      assert Sends(docs, cfg, clientErrors) == [d.envelope] + rest;
      assert forall k :: 1 <= k < |docs| ==> ([d.envelope] + rest)[k] == rest[k - 1];
    }
  }

  lemma AdvanceSends(prev: seq<Envelope>, r: StreamRecord, cfg: QueueConfig, clientErrors: map<nat, string>, i: nat)
    requires !RecordStep(r).Abort?
    ensures Advance(BatchRun(prev, None), RecordStep(r), cfg, clientErrors, i)
         == BatchRun(prev + Sends(Contribution(r, i), cfg, clientErrors), None)
  {
    var step := RecordStep(r);
    if step.Forward? {
      var tail := Contribution(r, i);
      assert tail == [Pending(i, step.doc)] && tail[1..] == [];
      assert Sends(tail, cfg, clientErrors) == Emitted(QueueDelivery(step.doc, cfg, ClientErrorAt(clientErrors, i)));
    } else {
      assert Contribution(r, i) == [];
      assert prev + [] == prev;
    }
  }

  /**
   * When no record raises, the batch sends, in order, the queue deliveries of
   * the forwarded documents, each failing only as its own record's send
   * fails: a failed send never affects the records after it.
   */
  lemma {:induction false} BatchSendsEveryChange(records: seq<StreamRecord>, cfg: QueueConfig, clientErrors: map<nat, string>)
    requires forall i :: 0 <= i < |records| ==> !RecordStep(records[i]).Abort?
    ensures Run(records, cfg, clientErrors) == BatchRun(Sends(Forwarded(records), cfg, clientErrors), None)
  {
    if records != [] {
      var last := |records| - 1;
      var init := records[..last];
      assert forall i :: 0 <= i < last ==> init[i] == records[i];
      BatchSendsEveryChange(init, cfg, clientErrors);
      var r := records[last];
      var prev := Sends(Forwarded(init), cfg, clientErrors);
      var added := Sends(Contribution(r, last), cfg, clientErrors);
      assert Run(records, cfg, clientErrors) == Advance(BatchRun(prev, None), RecordStep(r), cfg, clientErrors, last);
      AdvanceSends(prev, r, cfg, clientErrors, last);
      SendsAppend(Forwarded(init), Contribution(r, last), cfg, clientErrors);
      assert Sends(Forwarded(records), cfg, clientErrors) == prev + added;
    }
  }

  // ---------------------------------------------------------------------
  // The records exercised by the stream handler's own test cases

  const StreamTestQueues := QueueConfig(
    Some("https://sqs.us-east-1.amazonaws.com/123456789012/work-orders-received"),
    Some("https://sqs.us-east-1.amazonaws.com/123456789012/work-orders-in-progress"),
    Some("https://sqs.us-east-1.amazonaws.com/123456789012/work-orders-completed"),
    Some("https://sqs.us-east-1.amazonaws.com/123456789012/work-orders-canceled"))

  /** A REMOVE record is passed over: nothing is sent and the batch succeeds. */
  lemma RemoveRecordSendsNothing(clientErrors: map<nat, string>)
    ensures var records := [StreamRecord(Some("REMOVE"), Some(ChangeData(Some(map[]))))];
      Run(records, StreamTestQueues, clientErrors) == BatchRun([], None)
  {
    var records := [StreamRecord(Some("REMOVE"), Some(ChangeData(Some(map[]))))];
    SkippedBatchSendsNothing(records, StreamTestQueues, clientErrors);
  }

  /** An INSERT of a "received" order is sent once, to the received queue. */
  lemma InsertRecordSendsOnce()
    ensures var image: Image := map[
        "id" := [("S", Text("1234"))],
        "description" := [("S", Text("Test work order"))],
        "deliveryDate" := [("S", Text("2025-02-14T12:00:00Z"))],
        "status" := [("S", Text("received"))]];
      var run := Run([StreamRecord(Some("INSERT"), Some(ChangeData(Some(image))))], StreamTestQueues, map[]);
      && run.aborted.None?
      && |run.sent| == 1
      && run.sent[0].queueUrl == StreamTestQueues.received.value
      && run.sent[0].dedupId == "1234"
  {
    var image: Image := map[
        "id" := [("S", Text("1234"))],
        "description" := [("S", Text("Test work order"))],
        "deliveryDate" := [("S", Text("2025-02-14T12:00:00Z"))],
        "status" := [("S", Text("received"))]];
    var doc := ConvertItem(image);
    assert doc.Success?;
    var records := [StreamRecord(Some("INSERT"), Some(ChangeData(Some(image))))];
    assert records[..0] == [];
  }
}
