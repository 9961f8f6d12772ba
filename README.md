# Work-order intake: validation, routing and change-stream forwarding

This project models the core of a work-order service. The service is deployed in several variants, each as AWS Lambda handlers:

- An HTTP handler accepts `POST` requests that create a work order and `GET` requests that list them.
- A creation request passes a fixed chain of checks:
  1. required fields;
  2. status;
  3. delivery date;
  4. cancellation reason.
- A valid request is stored in a table, and then published in the way its variant uses:
  - **direct-to-sqs**: sent to the queue configured for its status;
  - **sns-filtering**: published to one topic, with a `status` filter attribute;
  - **dynamo-streams**: not published by the HTTP handler. A second handler consumes the table's change stream and sends each inserted or modified record to the queue for its status.

The handler code is copied across the variants. The model has one core for it, parameterised by a publish strategy (`ApiHandler.Strategy`).

Modules:

- `Basics`: `Option` and `Result`.
- `Timestamp`: the delivery-date check, `is_valid_iso8601`. It accepts exactly what CPython's `strptime` accepts under `%Y-%m-%dT%H:%M:%SZ`:
  - the year is exactly four digits;
  - the month, hour, minute and second are one or two digits within their ranges;
  - the day may also be a space followed by a digit;
  - `T` and `Z` match in either case;
  - the whole string must be consumed;
  - the `datetime` constructor then checks the day of the month, including leap years, and seconds below 60.

  A reference formatter for the canonical form is proved to parse back to the same date.
- `WorkOrders`: the status set, the work-order record, its document form and the validation chain `Validate`, where the first failure wins.
- `Routing`: the status→queue table, the queue envelope (`send_to_sqs`) and the topic envelope (`publish_to_sns`), with every way a send is dropped.
- `Services`: the external collaborators, as a class `Backend` with a `store` (the table's items) and an `outbox` (every message a queue or topic accepted). `put_item` replaces any item with the same key. Whether a call fails is given to each method as a parameter.
- `ApiHandler`: `lambda_handler`, `create_work_order`, `list_work_orders` and `response`, for all three strategies.
- `StreamHandler`: the change-stream `lambda_handler` loop and `convert_dynamodb_item`.

Inputs that the code reads from the environment or the runtime are parameters of the model:

- the queue URLs (`QueueConfig`, each of which may be unset);
- the topic ARN;
- the generated id and the creation timestamp;
- the outcome of every call to the table, a queue or the topic.

Where the code and the service's documented design disagree, the model follows the code:

- A deliveryDate is valid when `strptime` accepts it. That is wider than the documented fixed-width form: `2025-2-4T1:2:3Z` and `2025-02- 4T12:00:00Z` pass (`Timestamp.ShortFormAccepted`, `Timestamp.SpacePaddedDayAccepted`, `Timestamp.AcceptedShape`, `Timestamp.LowerCaseSeparatorsAccepted`).
- A null `deliveryDate` makes `strptime` raise a `TypeError`, which `is_valid_iso8601` does not catch, so the reply is 500 rather than 400 (`WorkOrders.Rejection.DateNotString`).
- `description` is only checked for presence. It may be empty or null.
- For a `canceled` order, the `cancellationReason` key only has to be present, and an explicit null satisfies the check. For other statuses a supplied reason is copied into the record.
- A status with no configured queue, and any publish failure, is caught and logged by the sender. Creation still returns 201.
- Only the sns-filtering variant lists the missing fields in its 400 reply.
- The direct variant's second status check, against the keys of the queue table, can never fail. It is proved unreachable (`ApiHandler.SecondStatusCheckPasses`) rather than modelled as a branch.
- The stream handler receives a null attribute as `{"NULL": true}`. It decodes that attribute to `true`, not to null, so a record without a description or a cancellation reason is forwarded with `true` in that field (`StreamHandler.WorkOrderImageRoundTrip`).

## Model

| member | source | states |
|---|---|---|
| Timestamp.YearField | solutions/direct-to-sqs/src/handler.py:121 | `%Y` accepts a field exactly when it is four ASCII digits, and reads the number they spell (at most 9999) |
| Timestamp.NumberField | solutions/direct-to-sqs/src/handler.py:121 | `%m`, `%H`, `%M`, `%S` accept a field exactly when it is one or two ASCII digits spelling a number within the directive's range, and read that number |
| Timestamp.DayField | solutions/direct-to-sqs/src/handler.py:121 | `%d` accepts exactly the one- or two-digit numbers 1..31 and a space followed by a digit 1..9 (so `" 4"` is a day), and reads the number spelled |
| Timestamp.Fields | solutions/direct-to-sqs/src/handler.py:121 | when the regular-expression stage matches, it yields exactly six fields, each cut at the first occurrence of its literal, the last literal ending the string |
| Timestamp.FieldsOfJoin | solutions/direct-to-sqs/src/handler.py:121 | six fields holding none of the literals, joined by `-`, `-`, `T` or `t`, `:`, `:`, `Z` or `z`, are cut back into exactly those six fields, whatever their widths |
| Timestamp.FieldsSpell | solutions/direct-to-sqs/src/handler.py:121 | whatever the pattern stage cuts spells the input back: the string is its six fields joined by those literals, `T` and `Z` in either case, and no field holds the literal that ends it |
| Timestamp.JoinValid | solutions/direct-to-sqs/src/handler.py:116-124 | a joined string parses to exactly what its six fields read as under the directive grammars, and is valid exactly when they read as a calendar-valid date |
| Timestamp.IsValidIso8601 | solutions/direct-to-sqs/src/handler.py:116-124 | true exactly when the pattern stage accepts the string and the calendar accepts the date it reads; every accepted string is 15 to 20 characters, with `-` at index 4 and a final `Z` or `z` |
| Timestamp.FormatParses | solutions/direct-to-sqs/src/handler.py:116-124 | every calendar-valid date written as `YYYY-MM-DDTHH:MM:SSZ` is accepted and parses back to that same date |
| Timestamp.LowerCaseSeparatorsAccepted | solutions/direct-to-sqs/src/handler.py:121 | the canonical form with `t` and `z` in lower case is accepted too |
| Timestamp.ShortFormAccepted | solutions/direct-to-sqs/src/handler.py:121 | single-digit month, day, hour, minute and second (a 15-character string) are accepted and read back exactly, so the check is not fixed-width |
| Timestamp.SpacePaddedDayAccepted | solutions/direct-to-sqs/src/handler.py:121 | a day written as a space and one digit, at index 8 of a 20-character string, is accepted and reads back as that date |
| Timestamp.AcceptsSpacePaddedDay | solutions/direct-to-sqs/src/handler.py:121 | the date `2025-02- 4T12:00:00Z` is accepted |
| Timestamp.AcceptedShape | solutions/direct-to-sqs/src/handler.py:121 | every string the pattern stage accepts is 15 to 20 characters long, has `-` at index 4, ends in `Z` or `z`, and its first four characters are digits spelling the year read |
| Timestamp.AcceptsTestDate | solutions/direct-to-sqs/tests/test_lamda.py:41-51 | the test's date `2025-02-14T12:00:00Z` is accepted |
| Timestamp.RejectsDateOnly | solutions/direct-to-sqs/tests/test_lamda.py:73-86 | the date `2025-02-14`, which has no time part, is rejected |
| WorkOrders.ParseStatus | solutions/direct-to-sqs/src/handler.py:20 | a status string is recognised exactly when it is one of the four valid statuses, and its name reads back to the same string |
| WorkOrders.StatusNameRoundTrip | solutions/direct-to-sqs/src/handler.py:20 | every status's name is valid and parses back to that status |
| WorkOrders.ToDocument | solutions/direct-to-sqs/src/handler.py:74-81 | the work-order dictionary has exactly the six keys, with the id as given and the status by its name |
| WorkOrders.ToDocumentInjective | solutions/direct-to-sqs/src/handler.py:74-81 | distinct work orders give distinct dictionaries: the document form loses nothing |
| WorkOrders.Absent | solutions/sns-filtering/src/api_handler.py:41 | the comprehension keeps exactly the listed fields that are not keys of the body, and never more than were listed |
| WorkOrders.AbsentAppend | solutions/sns-filtering/src/api_handler.py:41 | the comprehension over a concatenation is the concatenation of the comprehensions, so the listed order is kept |
| WorkOrders.AbsentFields | solutions/sns-filtering/src/api_handler.py:40-47 | the missing list is `description`, `deliveryDate`, `status` in that order, keeping exactly those absent from the body; it is empty exactly when all three are present |
| WorkOrders.Validate | solutions/direct-to-sqs/src/handler.py:43-62 | success exactly when all four checks pass, with the fields copied through; each rejection occurs exactly when its check is the first to fail, carrying the missing list or the offending status |
| Routing.QueueConfig.Table | solutions/direct-to-sqs/src/handler.py:13-18 | the queue table's keys are exactly the valid statuses |
| Routing.QueueUrl | solutions/direct-to-sqs/src/handler.py:131-133 | a queue is found exactly when the status is a valid status string whose URL is set and non-empty, and it is that URL |
| Routing.Emitted | solutions/direct-to-sqs/src/handler.py:135-143 | a delivery adds at most one message: none when dropped, and otherwise its envelope |
| Routing.QueueDelivery | solutions/direct-to-sqs/src/handler.py:130-143 | the message is delivered exactly when the document is routable and the client succeeds, to the status's queue with group id = status and dedup id = id; otherwise the error is caught |
| Routing.TopicDelivery | solutions/sns-filtering/src/api_handler.py:129-141 | the message is delivered exactly when a topic is set and the client succeeds; the message is the record, with one `status` attribute of type String |
| Routing.QueueTableCoversStatuses | solutions/direct-to-sqs/src/handler.py:13-20 | every status name is a key of the queue table, and the keys are exactly the valid statuses |
| Routing.OrderQueueDelivery | solutions/direct-to-sqs/src/handler.py:131-139 | a work order is sent exactly when its status's queue is configured and the client succeeds, with group id = its status and dedup id = its id |
| Routing.SameRoutingKey | solutions/sns-filtering/src/api_handler.py:133-137 | the topic's filter value equals the queue variant's group id for the same order |
| Services.Without | solutions/direct-to-sqs/src/handler.py:85 | removing a key keeps exactly the items with another key |
| Services.Upsert | solutions/direct-to-sqs/src/handler.py:84-85 | after a put, the item is present, it is the only item with its key, and every other item is kept |
| Services.WithoutAbsent | solutions/direct-to-sqs/src/handler.py:85 | removing a key that no item has leaves the table unchanged |
| Services.FreshPutAppends | solutions/direct-to-sqs/src/handler.py:84-85 | a put under a fresh id appends the item and leaves the rest in order |
| Services.Backend.PutItem | solutions/direct-to-sqs/src/handler.py:84-85 | a put that succeeds upserts the item; a failed put changes nothing; the outbox never changes |
| Services.Backend.Deliver | solutions/direct-to-sqs/src/handler.py:135-140 | the outbox grows by exactly the delivered messages, and the store is unchanged |
| Services.Backend.Scan | solutions/direct-to-sqs/src/handler.py:103-104 | a scan returns the whole table with its count, or the table's error |
| Services.SendToSqs | solutions/direct-to-sqs/src/handler.py:126-143 | sending appends exactly what the queue delivery emits, and the store is unchanged |
| Services.PublishToSns | solutions/sns-filtering/src/api_handler.py:125-141 | publishing appends exactly what the topic delivery emits, and the store is unchanged |
| ApiHandler.Respond | solutions/direct-to-sqs/src/handler.py:145-153 | every reply has the given code and payload, and the single header `Content-Type: application/json` |
| ApiHandler.RejectionResponse | solutions/sns-filtering/src/api_handler.py:43-66 | every validation failure is a 400 with its fixed message, except a null date, which is a 500 with the text of the `TypeError`; only the topic variant lists the missing fields; an invalid status quotes its value and lists the valid ones |
| ApiHandler.Candidate | solutions/direct-to-sqs/src/handler.py:69-81 | a record is built exactly when the body parsed and passed validation; it has the given id and timestamp and the request's fields; a reason is copied when supplied (null otherwise); a canceled order's body had the reason key |
| ApiHandler.CreateResponse | solutions/direct-to-sqs/src/handler.py:35-96 | the creation reply is JSON with 201, 400 or 500: 500 with the text of a parse or put error, the rejection reply for an invalid body, and 201 exactly when a record is built and the put succeeds, carrying that record |
| ApiHandler.ListResponse | solutions/sns-filtering/src/api_handler.py:101-113 | a scan failure gives 500 with its text; otherwise 200 with `items` = Items (default empty) and `total` = Count (default 0), where total is not recomputed from the items |
| ApiHandler.HandleResponse | solutions/direct-to-sqs/src/handler.py:22-33 | every reply is JSON with status 200, 201, 400, 405 or 500; POST gives 201, 400 or 500; GET gives 200 or 500 and lists the whole table; any other method gets 405 "Method Not Allowed" |
| ApiHandler.CreateWorkOrder | solutions/direct-to-sqs/src/handler.py:35-96 | the reply is the creation reply; the table gains the record exactly when it is valid and the put succeeds; the outbox gains that record's publication, and nothing when the put fails or the request is refused |
| ApiHandler.ListWorkOrders | solutions/dynamo-streams/src/api_handler.py:82-98 | a GET lists the whole table with its size and changes nothing |
| ApiHandler.HandleRequest | solutions/direct-to-sqs/src/handler.py:22-33 | POST creates, GET lists, and any other method gets 405; only POST changes the table or the outbox |
| ApiHandler.SecondStatusCheckPasses | solutions/direct-to-sqs/src/handler.py:64-67 | every body that passes validation has a status that is a key of the queue table, so the second status check never fails |
| ApiHandler.CreatedIffStored | solutions/dynamo-streams/src/api_handler.py:32-80 | the reply is 201 exactly when a record is stored, and then it carries that record; every other reply is 400 or 500, with JSON headers |
| ApiHandler.AtMostOnePublication | solutions/direct-to-sqs/src/handler.py:87-88 | a request publishes at most one message; the stream strategy publishes none from the API; a failing publish emits nothing |
| ApiHandler.ListedAfterCreate | solutions/dynamo-streams/src/api_handler.py:86-95 | a created record appears in the next listing as the only item with its id, and the total counts the items |
| ApiHandler.CreatesValidReceived | solutions/direct-to-sqs/tests/test_lamda.py:33-56 | a valid "received" body with a valid date yields 201 and stores the record with the given id and timestamp and a null reason |
| ApiHandler.ReceivedGoesToReceivedQueue | solutions/direct-to-sqs/tests/test_lamda.py:23-56 | with the test's queue table, a "received" order is sent once, to the received queue, grouped by status and deduplicated by id |
| ApiHandler.RefusesMissingFields | solutions/sns-filtering/tests/test_sns_handler.py:51-64 | a body with only a description is a 400 "Missing required fields."; the topic variant lists `deliveryDate` and `status` |
| ApiHandler.RefusesDateOnly | solutions/direct-to-sqs/tests/test_lamda.py:73-86 | a date-only deliveryDate is a 400 with the date-format message |
| ApiHandler.RefusesUnknownStatus | solutions/direct-to-sqs/tests/test_lamda.py:88-101 | an unknown status is a 400 quoting it, whatever the date, because the status check comes first |
| ApiHandler.RefusesCanceledWithoutReason | solutions/direct-to-sqs/tests/test_lamda.py:103-118 | a canceled order with a valid date and no reason is a 400 with the reason-required message |
| ApiHandler.RefusesOtherMethods | solutions/dynamo-streams/src/api_handler.py:18-25 | a method other than POST and GET is a 405 "Method Not Allowed" |
| StreamHandler.ConvertItem | solutions/dynamo-streams/src/stream_handler.py:52-56 | conversion succeeds exactly when no attribute's tag map is empty; it keeps the key set and takes each attribute's first value; otherwise it raises the index error |
| StreamHandler.RecordStep | solutions/dynamo-streams/src/stream_handler.py:21-24 | a missing `eventName` raises `'eventName'`; other events than INSERT and MODIFY are passed over; for INSERT and MODIFY a missing `dynamodb` or `NewImage` raises its quoted key, an empty typed value raises the index error, and otherwise the converted new image is forwarded |
| StreamHandler.Run | solutions/dynamo-streams/src/stream_handler.py:20-29 | the loop over the records in order, stopping at the first exception, sends at most one message per record |
| StreamHandler.RunStep | solutions/dynamo-streams/src/stream_handler.py:21-27 | the loop handles records one at a time, in order |
| StreamHandler.AbortSticks | solutions/dynamo-streams/src/stream_handler.py:20-32 | once a record raises, nothing after it is sent or changes the outcome |
| StreamHandler.ProcessStream | solutions/dynamo-streams/src/stream_handler.py:16-32 | the outbox grows by exactly the batch's sends; the reply is 200 "Processed successfully" when the loop completes, or 500 with the exception's text; a missing `Records` key is a 500 |
| StreamHandler.ConvertEncoded | solutions/dynamo-streams/src/stream_handler.py:52-56 | decoding an encoded document restores every key and every non-null value; null comes back as `true`, so the round trip is exact exactly when no value is null |
| StreamHandler.WorkOrderImageRoundTrip | solutions/dynamo-streams/src/stream_handler.py:52-56 | a stored work order reaches the stream unchanged exactly when it has both a description and a cancellation reason |
| StreamHandler.StreamRouteMatchesDirect | solutions/dynamo-streams/src/stream_handler.py:34-50 | the stream route sends a stored order exactly when the direct route would, to the same queue with the same group and dedup ids |
| StreamHandler.SkippedBatchSendsNothing | solutions/dynamo-streams/src/stream_handler.py:21-29 | a batch whose records are all passed over sends nothing and replies 200 |
| StreamHandler.AbortsIffSomeRecordAborts | solutions/dynamo-streams/src/stream_handler.py:20-32 | the batch raises exactly when some record does (never because of a send failure), and then with the first such record's error |
| StreamHandler.ForwardedExactly | solutions/dynamo-streams/src/stream_handler.py:21-24 | a document is forwarded with position `i` exactly when record `i` is an INSERT or MODIFY with that converted image, and the positions strictly increase |
| StreamHandler.SendsAppend | solutions/dynamo-streams/src/stream_handler.py:27 | the sends of consecutive documents concatenate |
| StreamHandler.SendsOnePerDelivered | solutions/dynamo-streams/src/stream_handler.py:38-48 | when every forwarded document's send is delivered, there is exactly one message per document, in order, each that document's queue envelope |
| StreamHandler.AdvanceSends | solutions/dynamo-streams/src/stream_handler.py:21-27 | a record that does not raise adds exactly the sends of its forwarded document, with its own send outcome |
| StreamHandler.BatchSendsEveryChange | solutions/dynamo-streams/src/stream_handler.py:20-50 | when no record raises, the outbox holds the queue deliveries of the forwarded documents, in batch order, each failing only as its own record's send fails, so a failed or unroutable send never stops the records after it |
| StreamHandler.RemoveRecordSendsNothing | solutions/dynamo-streams/tests/stream_handler.py:42-52 | a REMOVE record sends nothing and the batch succeeds |
| StreamHandler.InsertRecordSendsOnce | solutions/dynamo-streams/tests/stream_handler.py:21-40 | the test's INSERT record is sent once, to the received queue, deduplicated by its id |

## Left out

- The AWS clients: the table, queues and topic are the `store` and `outbox` of `Services.Backend`. Their delivery, FIFO ordering and deduplication semantics are not modelled.
- JSON encoding and decoding: a request body is either a parsed object of string-or-null members, or the text of the exception that parsing raised. Bodies that are JSON arrays or scalars, and members that are numbers, booleans or nested values, are not modelled.
- Response bodies are structured payloads, not JSON text. The `validStatuses` list is a set, because the code lists a Python set in no defined order.
- `uuid.uuid4()` and the clock are inputs. Uniqueness of ids is not modelled.
- Environment variables are the `QueueConfig` and the topic ARN, given as parameters. `print` logging is not modelled.
- Scan pagination: the code reads a single scan response, and the model's scan returns the whole table.
- `Services.Backend.Scan`: returns the items in store order, where a put appends and a replaced item moves to the end. A DynamoDB scan promises no order, so the listing's order is a property of the model only.
- A request without an `httpMethod` key, which raises outside the handler's `try`, is not modelled.
- `Timestamp.IsValidIso8601`: `\d` in Python regular expressions also matches non-ASCII digits. The model accepts ASCII digits only.
- `StreamHandler.ConvertItem`: attribute values are scalars (strings, booleans, null). Numbers, sets, lists and maps in a new image are not modelled.
- The eventbridge-sqs variant: its handler source is not part of this model.
- Concurrency between Lambda invocations: none exists within one invocation.
