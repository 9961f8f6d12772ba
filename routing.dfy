/**
 * The router shared by the variants: choosing a queue from the status, and
 * building the outbound envelope for a queue (`send_to_sqs`) or a topic
 * (`publish_to_sns`), together with the ways a send can fail.
 */
module Routing {
  import opened Basics
  import opened WorkOrders

  /** `SQS_QUEUES`: one queue URL per status, each read from an environment variable that may be unset. */
  datatype QueueConfig = QueueConfig(
    received: Option<string>,
    inProgress: Option<string>,
    completed: Option<string>,
    canceled: Option<string>)
  {
    /** The dictionary literal: its keys are always the four status names. */
    function Table(): (t: map<string, Option<string>>)
      ensures t.Keys == ValidStatuses
    {
      map["received" := received, "in_progress" := inProgress, "completed" := completed, "canceled" := canceled]
    }
  }

  /**
   * `SQS_QUEUES.get(status)` followed by `if not queue_url`: a status that is
   * not one of the keys, an unset variable and an empty URL all leave the
   * message without a queue.
   */
  function QueueUrl(cfg: QueueConfig, status: Scalar): (u: Option<string>)
    ensures u.Some? ==> u.value != ""
    ensures u.Some? <==> status.Text? && status.s in ValidStatuses
                         && cfg.Table()[status.s].Some? && cfg.Table()[status.s].value != ""
    ensures u.Some? ==> Some(u.value) == cfg.Table()[status.s]
  {
    if status.Text? && status.s in cfg.Table() then
      match cfg.Table()[status.s]
      case Some(url) => if url != "" then Some(url) else None
      case None => None
    else None
  }

  datatype MessageAttribute = MessageAttribute(dataType: string, stringValue: string)

  /** What a queue or topic accepted. */
  datatype Envelope =
    | QueueMessage(queueUrl: string, body: Document, groupId: string, dedupId: string)
    | TopicMessage(topicArn: string, message: Document, attributes: map<string, MessageAttribute>)

  /** Why a send did not happen; each is caught and logged by the sender. */
  datatype SendError =
    | MissingKey(key: string)          // KeyError on the document
    | NoQueue(status: Scalar)          // the ValueError raised by `send_to_sqs`
    | InvalidParameter(name: string)   // the client refuses a parameter of the wrong type
    | ClientError(text: string)        // the service call itself failed

  datatype Delivery = Delivered(envelope: Envelope) | Dropped(reason: SendError)

  /** The envelopes a delivery adds to the outbox. */
  function Emitted(d: Delivery): (e: seq<Envelope>)
    ensures |e| <= 1
    ensures e == [] <==> d.Dropped?
    ensures d.Delivered? ==> e[0] == d.envelope
  {
    if d.Delivered? then [d.envelope] else []
  }

  /** A document that `send_to_sqs` can send, given a working client. */
  predicate Routable(doc: Document, cfg: QueueConfig) {
    && "status" in doc && QueueUrl(cfg, doc["status"]).Some?
    && "id" in doc && doc["id"].Text?
  }

  /**
   * `send_to_sqs`: read the status, pick its queue, and send the document with
   * the status as group id and the id as deduplication id. `clientError` is
   * the failure the queue service reports for this call, if any.
   */
  function QueueDelivery(doc: Document, cfg: QueueConfig, clientError: Option<string>): (d: Delivery)
    ensures d.Delivered? <==> Routable(doc, cfg) && clientError.None?
    ensures d.Delivered? ==>
      d.envelope == QueueMessage(QueueUrl(cfg, doc["status"]).value, doc, doc["status"].s, doc["id"].s)
    ensures d.Dropped? && !("status" in doc) ==> d.reason == MissingKey("status")
  {
    if "status" !in doc then Dropped(MissingKey("status"))
    else
      var url := QueueUrl(cfg, doc["status"]);
      if url.None? then Dropped(NoQueue(doc["status"]))
      else if "id" !in doc then Dropped(MissingKey("id"))
      else if !doc["id"].Text? then Dropped(InvalidParameter("MessageDeduplicationId"))
      else if clientError.Some? then Dropped(ClientError(clientError.value))
      else Delivered(QueueMessage(url.value, doc, doc["status"].s, doc["id"].s))
  }

  /**
   * `publish_to_sns`: publish the record to the one topic with a single
   * `status` filter attribute. An unset topic ARN is refused by the client.
   */
  function TopicDelivery(w: WorkOrder, topic: Option<string>, clientError: Option<string>): (d: Delivery)
    ensures d.Delivered? <==> topic.Some? && clientError.None?
    ensures d.Delivered? ==> d.envelope.TopicMessage? && d.envelope.topicArn == topic.value
    ensures d.Delivered? ==> d.envelope.message == ToDocument(w)
    ensures d.Delivered? ==> d.envelope.attributes.Keys == {"status"}
    ensures d.Delivered? ==> d.envelope.attributes["status"] == MessageAttribute("String", StatusName(w.status))
  {
    if topic.None? then Dropped(InvalidParameter("TopicArn"))
    else if clientError.Some? then Dropped(ClientError(clientError.value))
    else
      var attributes := map["status" := MessageAttribute("String", StatusName(w.status))];
      Delivered(TopicMessage(topic.value, ToDocument(w), attributes))
  }

  /** Every valid status is a key of `SQS_QUEUES`, and nothing else is. */
  lemma QueueTableCoversStatuses(cfg: QueueConfig, st: Status)
    ensures StatusName(st) in cfg.Table()
    ensures cfg.Table().Keys == ValidStatuses
  {
  }

  /**
   * For a work order the queue decision depends on its status alone; the
   * envelope carries the order, grouped by its status and deduplicated by its id.
   */
  lemma {:induction false} OrderQueueDelivery(w: WorkOrder, cfg: QueueConfig, clientError: Option<string>)
    ensures var d := QueueDelivery(ToDocument(w), cfg, clientError);
      && (d.Delivered? <==> clientError.None? && cfg.Table()[StatusName(w.status)].Some?
                            && cfg.Table()[StatusName(w.status)] != Some(""))
      && (d.Delivered? ==> d.envelope == QueueMessage(cfg.Table()[StatusName(w.status)].value, ToDocument(w), StatusName(w.status), w.id))
  {
    var doc := ToDocument(w);
    assert doc["status"] == Text(StatusName(w.status));
    assert doc["id"] == Text(w.id);
    StatusNameRoundTrip(w.status);
  }

  /**
   * The topic variant is another realisation of the same routing decision:
   * its filter attribute carries the value the queue variant groups by.
   */
  lemma SameRoutingKey(w: WorkOrder, cfg: QueueConfig, topic: string)
    requires Routable(ToDocument(w), cfg)
    ensures QueueDelivery(ToDocument(w), cfg, None).envelope.groupId
         == TopicDelivery(w, Some(topic), None).envelope.attributes["status"].stringValue
  {
  }
}
