/**
 * The external collaborators the handlers call: the work-order table and the
 * messaging services, as one object whose state records what was stored and
 * what was accepted for delivery. Whether a call fails is decided by the
 * service, so each method takes that outcome as a parameter.
 */
module Services {
  import opened Basics
  import opened WorkOrders
  import opened Routing

  /** `store` without the record whose key is `id`, other records in their order. */
  function Without(store: seq<WorkOrder>, id: string): (r: seq<WorkOrder>)
    ensures forall x :: x in r <==> x in store && x.id != id
    ensures |r| <= |store|
  {
    if store == [] then []
    else if store[0].id == id then Without(store[1..], id)
    else [store[0]] + Without(store[1..], id)
  }

  /** `put_item`: the table holds one item per key, so a put replaces any item with the same id. */
  function Upsert(store: seq<WorkOrder>, w: WorkOrder): (r: seq<WorkOrder>)
    ensures w in r
    ensures forall x :: x in r && x.id == w.id ==> x == w
    ensures forall x :: x in store && x.id != w.id ==> x in r
    ensures forall x :: x in r ==> x == w || x in store
  {
    Without(store, w.id) + [w]
  }

  /** A `scan` response: `Items` and `Count`, either of which may be absent. */
  datatype ScanResult = ScanResult(items: Option<seq<WorkOrder>>, count: Option<int>)

  class Backend {
    /** The items of the work-order table. */
    var store: seq<WorkOrder>
    /** Every message accepted by a queue or topic, in the order of acceptance. */
    var outbox: seq<Envelope>

    constructor (initial: seq<WorkOrder>)
      ensures store == initial && outbox == []
    {
      store := initial;
      outbox := [];
    }

    /** `table.put_item(Item=w)`; `failure` is the error the table raises, if any. */
    method PutItem(w: WorkOrder, failure: Option<string>) returns (error: Option<string>)
      modifies this
      ensures error == failure
      ensures store == if failure.None? then Upsert(old(store), w) else old(store)
      ensures outbox == old(outbox)
    {
      error := failure;
      if failure.None? {
        store := Upsert(store, w);
      }
    }

    /** Hands one message to a queue or topic: a dropped delivery adds nothing. */
    method Deliver(d: Delivery)
      modifies this
      ensures outbox == old(outbox) + Emitted(d)
      ensures store == old(store)
    {
      if d.Delivered? {
        outbox := outbox + [d.envelope];
      }
    }

    /** `table.scan()`: a single page that holds the whole table. */
    method Scan(failure: Option<string>) returns (r: Result<ScanResult, string>)
      ensures failure.Some? ==> r == Failure(failure.value)
      ensures failure.None? ==> r == Success(ScanResult(Some(store), Some(|store|)))
    {
      if failure.Some? {
        r := Failure(failure.value);
      } else {
        r := Success(ScanResult(Some(store), Some(|store|)));
      }
    }
  }

  lemma {:induction false} WithoutAbsent(store: seq<WorkOrder>, id: string)
    requires forall x :: x in store ==> x.id != id
    ensures Without(store, id) == store
  {
    if store != [] {
      assert store[0] in store;
      WithoutAbsent(store[1..], id);
      assert [store[0]] + store[1..] == store;
    }
  }

  /** Putting a record under a fresh id appends it and leaves every other item in place. */
  lemma FreshPutAppends(store: seq<WorkOrder>, w: WorkOrder)
    requires forall x :: x in store ==> x.id != w.id
    ensures Upsert(store, w) == store + [w]
  {
    WithoutAbsent(store, w.id);
  }

  /** `send_to_sqs`, shared by the direct API handler and the stream handler. */
  method SendToSqs(backend: Backend, doc: Document, cfg: QueueConfig, clientError: Option<string>)
    modifies backend
    ensures backend.outbox == old(backend.outbox) + Emitted(QueueDelivery(doc, cfg, clientError))
    ensures backend.store == old(backend.store)
  {
    var d := QueueDelivery(doc, cfg, clientError);
    backend.Deliver(d);
  }

  /** `publish_to_sns`. */
  method PublishToSns(backend: Backend, w: WorkOrder, topic: Option<string>, clientError: Option<string>)
    modifies backend
    ensures backend.outbox == old(backend.outbox) + Emitted(TopicDelivery(w, topic, clientError))
    ensures backend.store == old(backend.store)
  {
    var d := TopicDelivery(w, topic, clientError);
    backend.Deliver(d);
  }
}
