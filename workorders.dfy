/**
 * The work-order entity and the validation chain that every API handler runs
 * on a creation request before anything is stored.
 */
module WorkOrders {
  import opened Basics
  import Timestamp

  datatype Status = Received | InProgress | Completed | Canceled

  function StatusName(st: Status): string {
    match st
    case Received => "received"
    case InProgress => "in_progress"
    case Completed => "completed"
    case Canceled => "canceled"
  }

  /** `VALID_STATUSES`. */
  const ValidStatuses: set<string> := {"received", "in_progress", "completed", "canceled"}

  /** The membership test `status in VALID_STATUSES`, returning the status it names. */
  function ParseStatus(t: string): (r: Option<Status>)
    ensures r.Some? <==> t in ValidStatuses
    ensures r.Some? ==> StatusName(r.value) == t
  {
    if t == "received" then Some(Received)
    else if t == "in_progress" then Some(InProgress)
    else if t == "completed" then Some(Completed)
    else if t == "canceled" then Some(Canceled)
    else None
  }

  lemma StatusNameRoundTrip(st: Status)
    ensures StatusName(st) in ValidStatuses
    ensures ParseStatus(StatusName(st)) == Some(st)
  {
  }

  /** A JSON scalar as it appears in a work-order document: a string, a boolean or null. */
  datatype Scalar = Text(s: string) | Flag(b: bool) | Nil

  /** A JSON object with scalar members: the serialised form of a work order. */
  type Document = map<string, Scalar>

  datatype WorkOrder = WorkOrder(
    id: string,
    createdAt: string,
    description: Option<string>,
    deliveryDate: string,
    status: Status,
    cancellationReason: Option<string>)

  function OptionalText(v: Option<string>): Scalar {
    match v
    case Some(t) => Text(t)
    case None => Nil
  }

  /** The six keys of a work-order document. */
  const DocumentKeys: set<string> := {"id", "createdAt", "description", "deliveryDate", "status", "cancellationReason"}

  /** The dictionary the handlers build, stored, returned and published: six keys, the status by its name. */
  function ToDocument(w: WorkOrder): (d: Document)
    ensures d.Keys == DocumentKeys
    ensures d["id"] == Text(w.id) && d["status"] == Text(StatusName(w.status))
  {
    map[
      "id" := Text(w.id),
      "createdAt" := Text(w.createdAt),
      "description" := OptionalText(w.description),
      "deliveryDate" := Text(w.deliveryDate),
      "status" := Text(StatusName(w.status)),
      "cancellationReason" := OptionalText(w.cancellationReason)]
  }

  /** The document form loses nothing: distinct work orders give distinct documents. */
  lemma ToDocumentInjective(v: WorkOrder, w: WorkOrder)
    requires ToDocument(v) == ToDocument(w)
    ensures v == w
  {
    var dv, dw := ToDocument(v), ToDocument(w);
    assert dv["id"] == dw["id"] && dv["createdAt"] == dw["createdAt"];
    assert dv["description"] == dw["description"] && dv["deliveryDate"] == dw["deliveryDate"];
    assert dv["status"] == dw["status"] && dv["cancellationReason"] == dw["cancellationReason"];
    StatusNameRoundTrip(v.status);
    StatusNameRoundTrip(w.status);
  }

  // ---------------------------------------------------------------------
  // Request bodies and the validation chain

  /** A parsed JSON request body: each member is a string or null. */
  type Body = map<string, Option<string>>

  const RequiredFields: seq<string> := ["description", "deliveryDate", "status"]

  /** `[field for field in fields if field not in body]`. */
  function Absent(fields: seq<string>, body: Body): (m: seq<string>)
    ensures forall f :: f in m <==> f in fields && f !in body
    ensures |m| <= |fields|
  {
    if fields == [] then []
    else (if fields[0] in body then [] else [fields[0]]) + Absent(fields[1..], body)
  }

  /** The comprehension over a concatenation is the concatenation of the comprehensions: order is kept. */
  lemma {:induction false} AbsentAppend(a: seq<string>, b: seq<string>, body: Body)
    ensures Absent(a + b, body) == Absent(a, body) + Absent(b, body)
  {
    if a == [] {
      assert a + b == b;
    } else {
      assert (a + b)[0] == a[0] && (a + b)[1..] == a[1..] + b;
      AbsentAppend(a[1..], b, body);
    }
  }

  /** The required fields missing from a body, in the order they are listed; empty exactly when none is. */
  function AbsentFields(body: Body): (m: seq<string>)
    ensures m == (if "description" in body then [] else ["description"])
               + (if "deliveryDate" in body then [] else ["deliveryDate"])
               + (if "status" in body then [] else ["status"])
    ensures forall f :: f in m <==> f in RequiredFields && f !in body
    ensures m == [] <==> HasRequiredFields(body)
  {
    var rest, last: seq<string> := ["deliveryDate", "status"], ["status"];
    assert RequiredFields[1..] == rest && rest[1..] == last && last[1..] == [];
    assert Absent(last, body) == (if "status" in body then [] else ["status"]);
    assert Absent(rest, body) == (if "deliveryDate" in body then [] else ["deliveryDate"]) + Absent(last, body);
    Absent(RequiredFields, body)
  }

  datatype Rejection =
    | MissingFields(missing: seq<string>)
    | InvalidStatus(value: Option<string>)
    | InvalidDateFormat
    /** `deliveryDate` is null: `strptime` raises a TypeError, which `is_valid_iso8601` does not catch. */
    | DateNotString
    | MissingCancellationReason

  /** A request body that passed every check. */
  datatype Draft = Draft(
    description: Option<string>,
    deliveryDate: string,
    status: Status,
    cancellationReason: Option<string>)

  // Each check on its own, stated without reference to the order in which they run.

  predicate HasRequiredFields(body: Body) {
    "description" in body && "deliveryDate" in body && "status" in body
  }

  predicate HasValidStatus(body: Body) {
    "status" in body && body["status"].Some? && body["status"].value in ValidStatuses
  }

  predicate HasValidDate(body: Body) {
    "deliveryDate" in body && body["deliveryDate"].Some? && Timestamp.IsValidIso8601(body["deliveryDate"].value)
  }

  /** Key presence alone satisfies the check: an explicit null reason is accepted. */
  predicate HasReasonIfCanceled(body: Body) {
    "status" in body && body["status"] == Some("canceled") ==> "cancellationReason" in body
  }

  /** `body.get(name)`: null when the key is absent. */
  function Lookup(body: Body, name: string): Option<string> {
    if name in body then body[name] else None
  }

  /**
   * The checks of `create_work_order`, first failure wins: required fields,
   * then status membership, then the date format, then the cancellation reason.
   */
  function Validate(body: Body): (r: Result<Draft, Rejection>)
    ensures r.Success? <==>
      HasRequiredFields(body) && HasValidStatus(body) && HasValidDate(body) && HasReasonIfCanceled(body)
    ensures r.Success? ==>
      && r.value.description == body["description"]
      && Some(r.value.deliveryDate) == body["deliveryDate"]
      && Some(StatusName(r.value.status)) == body["status"]
      && r.value.cancellationReason == Lookup(body, "cancellationReason")
    ensures (r.Failure? && r.error.MissingFields?) <==> !HasRequiredFields(body)
    ensures r.Failure? && r.error.MissingFields? ==> r.error.missing == AbsentFields(body)
    ensures (r.Failure? && r.error.InvalidStatus?) <==> HasRequiredFields(body) && !HasValidStatus(body)
    ensures r.Failure? && r.error.InvalidStatus? ==> r.error.value == body["status"]
    ensures r == Failure(DateNotString) <==>
      HasRequiredFields(body) && HasValidStatus(body) && body["deliveryDate"].None?
    ensures r == Failure(InvalidDateFormat) <==>
      HasRequiredFields(body) && HasValidStatus(body) && body["deliveryDate"].Some? && !HasValidDate(body)
    ensures r == Failure(MissingCancellationReason) <==>
      HasRequiredFields(body) && HasValidStatus(body) && HasValidDate(body) && !HasReasonIfCanceled(body)
  {
    if !HasRequiredFields(body) then Failure(MissingFields(AbsentFields(body)))
    else
      var status := body["status"];
      var parsed := if status.Some? then ParseStatus(status.value) else None;
      if parsed.None? then Failure(InvalidStatus(status))
      else if body["deliveryDate"].None? then Failure(DateNotString)
      else if !Timestamp.IsValidIso8601(body["deliveryDate"].value) then Failure(InvalidDateFormat)
      else if parsed.value == Canceled && "cancellationReason" !in body then Failure(MissingCancellationReason)
      else Success(Draft(body["description"], body["deliveryDate"].value, parsed.value, Lookup(body, "cancellationReason")))
  }

  /** The record `create_work_order` builds from a valid body, a fresh id and the clock. */
  function Build(d: Draft, id: string, createdAt: string): WorkOrder {
    WorkOrder(id, createdAt, d.description, d.deliveryDate, d.status, d.cancellationReason)
  }
}
