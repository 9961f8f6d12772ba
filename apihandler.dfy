/**
 * The HTTP entry point shared by the three API variants: `lambda_handler`
 * dispatches on the method, `create_work_order` validates, stores and
 * publishes, and `list_work_orders` scans the table. The variants differ
 * only in how a stored record is published, which `Strategy` selects.
 */
module ApiHandler {
  import opened Basics
  import opened WorkOrders
  import opened Routing
  import opened Services

  /** How a stored record reaches its consumers. */
  datatype Strategy =
    | DirectQueues(queues: QueueConfig)    // direct-to-sqs: `send_to_sqs` after the put
    | TopicFanout(topic: Option<string>)   // sns-filtering: `publish_to_sns` after the put
    | ChangeStream                         // dynamo-streams: the table's change stream publishes

  /** `json.loads(event["body"])`: a JSON object, or the text of the exception raised. */
  datatype RawBody = Parsed(fields: Body) | Unparseable(error: string)

  datatype Request = Request(httpMethod: string, body: RawBody)

  /** The outcome each collaborator reports for this invocation (None: the call succeeds). */
  datatype Faults = Faults(putError: Option<string>, publishError: Option<string>, scanError: Option<string>)

  /** The JSON object serialised into the response body. */
  datatype Payload =
    | Message(message: string)
    | MissingFieldsMessage(message: string, missingFields: seq<string>)
    | InvalidStatusMessage(message: string, validStatuses: set<string>)
    | Created(message: string, data: WorkOrder)
    | Listing(items: seq<WorkOrder>, total: int)

  datatype Response = Response(statusCode: int, headers: map<string, string>, payload: Payload)

  const JsonHeaders: map<string, string> := map["Content-Type" := "application/json"]

  const MissingFieldsText := "Missing required fields."
  const DateFormatText := "Invalid date format. The 'deliveryDate' must be in ISO 8601 format (YYYY-MM-DDTHH:MM:SSZ)."
  const ReasonRequiredText := "Cancellation reason is required when status is 'canceled'."
  const CreatedText := "Resource created successfully"
  const NotAllowedText := "Method Not Allowed"
  /** `str(e)` of the TypeError `strptime` raises on a null `deliveryDate`. */
  const DateTypeErrorText := "strptime() argument 1 must be str, not None"

  /** `response(status_code, body)`: every reply carries the JSON content type. */
  function Respond(code: int, payload: Payload): (r: Response)
    ensures r.statusCode == code && r.payload == payload
    ensures r.headers.Keys == {"Content-Type"} && r.headers["Content-Type"] == "application/json"
  {
    Response(code, JsonHeaders, payload)
  }

  /** How Python's f-string shows a JSON string or null. */
  function Render(v: Option<string>): string {
    match v
    case Some(t) => t
    case None => "None"
  }

  function InvalidStatusText(v: Option<string>): string {
    "Invalid status '" + Render(v) + "'."
  }

  /** The reply to a body that fails validation; only the topic variant lists the missing fields. */
  function RejectionResponse(strategy: Strategy, e: Rejection): (r: Response)
    ensures r.headers == JsonHeaders
    ensures r.statusCode == (if e.DateNotString? then 500 else 400)
    ensures e.MissingFields? ==>
      (r.payload.Message? || r.payload.MissingFieldsMessage?) && r.payload.message == MissingFieldsText
    ensures e.MissingFields? ==>
      (r.payload.MissingFieldsMessage? <==> strategy.TopicFanout?)
      && (r.payload.MissingFieldsMessage? ==> r.payload.missingFields == e.missing)
    ensures e.InvalidStatus? ==>
      r.payload == InvalidStatusMessage(InvalidStatusText(e.value), ValidStatuses)
    ensures e.InvalidDateFormat? ==> r.payload == Message(DateFormatText)
    ensures e.MissingCancellationReason? ==> r.payload == Message(ReasonRequiredText)
    ensures e.DateNotString? ==> r.payload == Message(DateTypeErrorText)
  {
    match e
    case MissingFields(missing) =>
      if strategy.TopicFanout? then Respond(400, MissingFieldsMessage(MissingFieldsText, missing))
      else Respond(400, Message(MissingFieldsText))
    case InvalidStatus(v) => Respond(400, InvalidStatusMessage(InvalidStatusText(v), ValidStatuses))
    case InvalidDateFormat => Respond(400, Message(DateFormatText))
    case DateNotString => Respond(500, Message(DateTypeErrorText))
    case MissingCancellationReason => Respond(400, Message(ReasonRequiredText))
  }

  /** The record a creation request puts, if it gets that far. */
  function Candidate(body: RawBody, id: string, createdAt: string): (c: Option<WorkOrder>)
    ensures c.Some? <==> body.Parsed? && Validate(body.fields).Success?
    ensures c.Some? ==>
      && c.value.id == id && c.value.createdAt == createdAt
      && c.value.description == body.fields["description"]
      && Some(c.value.deliveryDate) == body.fields["deliveryDate"]
      && Some(StatusName(c.value.status)) == body.fields["status"]
      && c.value.cancellationReason == Lookup(body.fields, "cancellationReason")
      && (c.value.status == Canceled ==> "cancellationReason" in body.fields)
  {
    if body.Parsed? && Validate(body.fields).Success? then Some(Build(Validate(body.fields).value, id, createdAt))
    else None
  }

  /** The reply of `create_work_order`; a failed publish never changes it. */
  function CreateResponse(strategy: Strategy, body: RawBody, id: string, createdAt: string, putError: Option<string>): (r: Response)
    ensures r.headers == JsonHeaders
    ensures r.statusCode in {201, 400, 500}
    ensures r.statusCode == 201 <==> Candidate(body, id, createdAt).Some? && putError.None?
    ensures r.statusCode == 201 ==> r.payload == Created(CreatedText, Candidate(body, id, createdAt).value)
    ensures body.Unparseable? ==> r == Respond(500, Message(body.error))
    ensures body.Parsed? && Validate(body.fields).Failure? ==> r == RejectionResponse(strategy, Validate(body.fields).error)
    ensures Candidate(body, id, createdAt).Some? && putError.Some? ==> r == Respond(500, Message(putError.value))
  {
    match body
    case Unparseable(e) => Respond(500, Message(e))
    case Parsed(fields) =>
      match Validate(fields)
      case Failure(e) => RejectionResponse(strategy, e)
      case Success(d) =>
        if putError.Some? then Respond(500, Message(putError.value))
        else Respond(201, Created(CreatedText, Build(d, id, createdAt)))
  }

  /** The record stored by a creation request: the candidate, when the put succeeds. */
  function Stored(body: RawBody, id: string, createdAt: string, putError: Option<string>): Option<WorkOrder> {
    if putError.None? then Candidate(body, id, createdAt) else None
  }

  /** The messages a stored record gives rise to during the request. */
  function Publication(strategy: Strategy, w: WorkOrder, publishError: Option<string>): seq<Envelope> {
    match strategy
    case DirectQueues(cfg) => Emitted(QueueDelivery(ToDocument(w), cfg, publishError))
    case TopicFanout(topic) => Emitted(TopicDelivery(w, topic, publishError))
    case ChangeStream => []
  }

  /** The reply of `list_work_orders` to a scan; absent keys read as an empty page. */
  function ListResponse(scan: Result<ScanResult, string>): (r: Response)
    ensures r.headers == JsonHeaders
    ensures scan.Failure? ==> r.statusCode == 500 && r.payload == Message(scan.error)
    ensures scan.Success? ==> r.statusCode == 200 && r.payload.Listing?
    ensures scan.Success? ==> r.payload.items == (if scan.value.items.Some? then scan.value.items.value else [])
    ensures scan.Success? ==> r.payload.total == (if scan.value.count.Some? then scan.value.count.value else 0)
  {
    match scan
    case Failure(e) => Respond(500, Message(e))
    case Success(page) => Respond(200, Listing(page.items.GetOr([]), page.count.GetOr(0)))
  }

  /** What `table.scan()` reports on a table holding `store`. */
  function ScanOf(store: seq<WorkOrder>, scanError: Option<string>): Result<ScanResult, string> {
    if scanError.Some? then Failure(scanError.value) else Success(ScanResult(Some(store), Some(|store|)))
  }

  /** The reply of `lambda_handler` on a table holding `store`. */
  function HandleResponse(strategy: Strategy, req: Request, id: string, createdAt: string,
                          faults: Faults, store: seq<WorkOrder>): (r: Response)
    ensures r.headers == JsonHeaders
    ensures r.statusCode in {200, 201, 400, 405, 500}
    ensures req.httpMethod == "POST" ==> r.statusCode in {201, 400, 500}
    ensures req.httpMethod == "GET" ==> r.statusCode in {200, 500} && (faults.scanError.None? ==> r.payload == Listing(store, |store|))
    ensures req.httpMethod != "POST" && req.httpMethod != "GET" ==> r == Respond(405, Message(NotAllowedText))
  {
    if req.httpMethod == "POST" then CreateResponse(strategy, req.body, id, createdAt, faults.putError)
    else if req.httpMethod == "GET" then ListResponse(ScanOf(store, faults.scanError))
    else Respond(405, Message(NotAllowedText))
  }

  /**
   * `create_work_order`. `id` and `createdAt` are the values `uuid4` and the
   * clock produce. The table changes only when the request is valid and the
   * put succeeds; the messages published follow the strategy.
   */
  method CreateWorkOrder(backend: Backend, strategy: Strategy, body: RawBody, id: string, createdAt: string, faults: Faults)
    returns (resp: Response)
    modifies backend
    ensures resp == CreateResponse(strategy, body, id, createdAt, faults.putError)
    ensures var s := Stored(body, id, createdAt, faults.putError);
      backend.store == (if s.Some? then Upsert(old(backend.store), s.value) else old(backend.store))
    ensures var s := Stored(body, id, createdAt, faults.putError);
      backend.outbox == old(backend.outbox) + (if s.Some? then Publication(strategy, s.value, faults.publishError) else [])
  {
    if body.Unparseable? {
      assert Stored(body, id, createdAt, faults.putError).None?;
      return Respond(500, Message(body.error));
    }
    var v := Validate(body.fields);
    if v.Failure? {
      assert Stored(body, id, createdAt, faults.putError).None?;
      return RejectionResponse(strategy, v.error);
    }
    // The direct variant's second membership test against the keys of the
    // queue table always passes here: see SecondStatusCheckPasses.
    var w := Build(v.value, id, createdAt);
    var error := backend.PutItem(w, faults.putError);
    if error.Some? {
      assert Stored(body, id, createdAt, faults.putError).None?;
      return Respond(500, Message(error.value));
    }
    assert Stored(body, id, createdAt, faults.putError) == Some(w);
    match strategy {
      case DirectQueues(cfg) => SendToSqs(backend, ToDocument(w), cfg, faults.publishError);
      case TopicFanout(topic) => PublishToSns(backend, w, topic, faults.publishError);
      case ChangeStream =>
    }
    resp := Respond(201, Created(CreatedText, w));
  }

  /** `list_work_orders`: reads the table and changes nothing. */
  method ListWorkOrders(backend: Backend, scanError: Option<string>) returns (resp: Response)
    ensures resp == ListResponse(ScanOf(backend.store, scanError))
    ensures scanError.None? ==> resp.statusCode == 200 && resp.payload == Listing(backend.store, |backend.store|)
  {
    var scan := backend.Scan(scanError);
    resp := ListResponse(scan);
  }

  /** `lambda_handler`: POST creates, GET lists, any other method is refused. */
  method HandleRequest(backend: Backend, strategy: Strategy, req: Request, id: string, createdAt: string, faults: Faults)
    returns (resp: Response)
    modifies backend
    ensures resp == HandleResponse(strategy, req, id, createdAt, faults, old(backend.store))
    ensures req.httpMethod != "POST" ==> backend.store == old(backend.store) && backend.outbox == old(backend.outbox)
    ensures req.httpMethod == "POST" ==> var s := Stored(req.body, id, createdAt, faults.putError);
      && backend.store == (if s.Some? then Upsert(old(backend.store), s.value) else old(backend.store))
      && backend.outbox == old(backend.outbox) + (if s.Some? then Publication(strategy, s.value, faults.publishError) else [])
  {
    if req.httpMethod == "POST" {
      resp := CreateWorkOrder(backend, strategy, req.body, id, createdAt, faults);
    } else if req.httpMethod == "GET" {
      resp := ListWorkOrders(backend, faults.scanError);
    } else {
      resp := Respond(405, Message(NotAllowedText));
    }
  }

  // ---------------------------------------------------------------------
  // Properties

  /** A body that passes validation names a status that is a key of the queue table. */
  lemma SecondStatusCheckPasses(body: Body, cfg: QueueConfig)
    requires Validate(body).Success?
    ensures body["status"].Some? && body["status"].value in cfg.Table()
  {
    QueueTableCoversStatuses(cfg, Validate(body).value.status);
  }

  /**
   * 201 exactly when the body is valid and the put succeeds, and then the
   * stored record is the one returned; every other reply leaves the table alone.
   */
  lemma CreatedIffStored(strategy: Strategy, body: RawBody, id: string, createdAt: string, putError: Option<string>)
    ensures var r := CreateResponse(strategy, body, id, createdAt, putError);
      && (r.statusCode == 201 <==> Stored(body, id, createdAt, putError).Some?)
      && (r.statusCode == 201 ==> r.payload == Created(CreatedText, Stored(body, id, createdAt, putError).value))
      && (r.statusCode != 201 ==> r.statusCode in {400, 500})
      && r.headers == JsonHeaders
  {
    match body
    case Unparseable(_) =>
    case Parsed(fields) =>
      var v := Validate(fields);
      if v.Failure? {
        var e := v.error;
        assert CreateResponse(strategy, body, id, createdAt, putError) == RejectionResponse(strategy, e);
      }
  }

  /** At most one message per request, and none from the API when the table's stream publishes. */
  lemma AtMostOnePublication(strategy: Strategy, w: WorkOrder, publishError: Option<string>)
    ensures |Publication(strategy, w, publishError)| <= 1
    ensures strategy.ChangeStream? ==> Publication(strategy, w, publishError) == []
    ensures publishError.Some? ==> Publication(strategy, w, publishError) == []
  {
    match strategy
    case DirectQueues(cfg) =>
      var d := QueueDelivery(ToDocument(w), cfg, publishError);
    case TopicFanout(topic) =>
      var d := TopicDelivery(w, topic, publishError);
    case ChangeStream =>
  }

  /** A record that was created is listed by the next GET, and the total counts the items. */
  lemma ListedAfterCreate(store: seq<WorkOrder>, body: RawBody, id: string, createdAt: string)
    requires Stored(body, id, createdAt, None).Some?
    ensures var w := Stored(body, id, createdAt, None).value;
      var r := ListResponse(ScanOf(Upsert(store, w), None));
      && r.statusCode == 200
      && w in r.payload.items
      && r.payload.total == |r.payload.items|
      && (forall x :: x in r.payload.items && x.id == id ==> x == w)
  {
  }

  // ---------------------------------------------------------------------
  // The requests exercised by the handlers' own test cases

  const DirectTestQueues := QueueConfig(
    Some("https://sqs.us-east-1.amazonaws.com/123456789012/work-orders-received.fifo"),
    Some("https://sqs.us-east-1.amazonaws.com/123456789012/work-orders-in-progress.fifo"),
    Some("https://sqs.us-east-1.amazonaws.com/123456789012/work-orders-completed.fifo"),
    Some("https://sqs.us-east-1.amazonaws.com/123456789012/work-orders-canceled.fifo"))

  function TestBody(description: string, deliveryDate: string, status: string): Body {
    map["description" := Some(description), "deliveryDate" := Some(deliveryDate), "status" := Some(status)]
  }

  /**
   * A valid "received" order is created and stored as returned;
   * `Timestamp.AcceptsTestDate` shows the test's date is such a date.
   */
  lemma CreatesValidReceived(strategy: Strategy, id: string, createdAt: string, date: string)
    requires Timestamp.IsValidIso8601(date)
    ensures var body := Parsed(TestBody("Test work order", date, "received"));
      var w := WorkOrder(id, createdAt, Some("Test work order"), date, Received, None);
      && CreateResponse(strategy, body, id, createdAt, None) == Respond(201, Created(CreatedText, w))
      && Stored(body, id, createdAt, None) == Some(w)
  {
    var fields := TestBody("Test work order", date, "received");
    var v := Validate(fields);
    assert v.Success?;
    assert v.value.status == Received by { StatusNameRoundTrip(v.value.status); }
  }

  /** With the test's queue table, a "received" order is sent once, to the received queue. */
  lemma ReceivedGoesToReceivedQueue(w: WorkOrder)
    requires w.status == Received
    ensures Publication(DirectQueues(DirectTestQueues), w, None)
         == [QueueMessage(DirectTestQueues.received.value, ToDocument(w), "received", w.id)]
  {
    OrderQueueDelivery(w, DirectTestQueues, None);
  }

  /** A body with only a description is refused; the topic variant names the two missing fields. */
  lemma RefusesMissingFields(strategy: Strategy, id: string, createdAt: string)
    ensures var r := CreateResponse(strategy, Parsed(map["description" := Some("Falta deliveryDate y status")]), id, createdAt, None);
      && r.statusCode == 400 && r.payload.message == MissingFieldsText
      && (strategy.TopicFanout? ==> r.payload == MissingFieldsMessage(MissingFieldsText, ["deliveryDate", "status"]))
  {
    var fields: Body := map["description" := Some("Falta deliveryDate y status")];
    assert AbsentFields(fields) == ["deliveryDate", "status"];
  }

  /** A date without its time part is refused as a format error. */
  lemma RefusesDateOnly(strategy: Strategy, id: string, createdAt: string)
    ensures CreateResponse(strategy, Parsed(TestBody("Test work order", "2025-02-14", "received")), id, createdAt, None)
         == Respond(400, Message(DateFormatText))
  {
    var fields := TestBody("Test work order", "2025-02-14", "received");
    assert HasRequiredFields(fields) && HasValidStatus(fields);
    assert fields["deliveryDate"] == Some("2025-02-14");
    assert !HasValidDate(fields) by { Timestamp.RejectsDateOnly(); }
    assert Validate(fields) == Failure(InvalidDateFormat);
  }

  /** An unknown status is refused, quoting the value and listing the valid ones, whatever the date. */
  lemma RefusesUnknownStatus(strategy: Strategy, id: string, createdAt: string, date: string)
    ensures CreateResponse(strategy, Parsed(TestBody("Test work order", date, "unknown")), id, createdAt, None)
         == Respond(400, InvalidStatusMessage("Invalid status 'unknown'.", ValidStatuses))
  {
    var fields := TestBody("Test work order", date, "unknown");
    assert Validate(fields) == Failure(InvalidStatus(Some("unknown")));
  }

  /** A canceled order with a valid date but no reason is refused. */
  lemma RefusesCanceledWithoutReason(strategy: Strategy, id: string, createdAt: string, date: string)
    requires Timestamp.IsValidIso8601(date)
    ensures CreateResponse(strategy, Parsed(TestBody("Orden cancelada sin razón", date, "canceled")), id, createdAt, None)
         == Respond(400, Message(ReasonRequiredText))
  {
    var fields := TestBody("Orden cancelada sin razón", date, "canceled");
    assert HasRequiredFields(fields) && HasValidStatus(fields) && HasValidDate(fields);
    assert !HasReasonIfCanceled(fields);
    assert Validate(fields) == Failure(MissingCancellationReason);
  }

  /** Only POST and GET are served. */
  lemma RefusesOtherMethods(strategy: Strategy, req: Request, id: string, createdAt: string, faults: Faults, store: seq<WorkOrder>)
    requires req.httpMethod != "POST" && req.httpMethod != "GET"
    ensures HandleResponse(strategy, req, id, createdAt, faults, store) == Respond(405, Message(NotAllowedText))
  {
  }
}
