# URL shortener: change-data-capture projector and short codes

This project models the core of a URL shortener in Dafny and proves
properties of the model. The system has three parts. The write API stores
links in PostgreSQL. A change-data-capture connector publishes every row
change as an envelope on a Kafka topic. The projector mirrors those
changes into the document store that the read API serves. The model
covers:

- **The envelope decoder** (`link_model.dfy`, `envelope.dfy`). It turns the
  loosely typed `after` image of a change event into a strict `Link`. It
  checks `id`, `short_code`, `long_url`, `created_at` and `expires_at` in
  that order. Timestamps are read in the fixed layout `2006-01-02T15:04:05Z`
  the way Go's `time.Parse` reads it: chunk by chunk, then a range check on
  every field.
- **The reconciliation service** (`link_service.dfy`). `LinkService` is a
  class over a document store `LinkRepository` that holds a
  `map<int, Link>`. `ApplyLogic` upserts on ops `c`, `u` and `r`, deletes on
  `d` when `before.id` is a float64, and ignores every other op. It never
  reports an error to its caller; it produces only a log line, which is
  modelled as a returned value. The pure functions `Plan`, `Reconcile` and
  `Replay` specify the effect of one event and of a sequence of events.
- **The consumer loops** (`link_consumer.dfy`). The class `Relay` holds a
  trace of everything the loops do that can be seen from outside: consumer
  creation, subscription, polls, reconcile calls, closes and sleeps. Its
  methods are the inner poll loop (`ConsumeLoop`), one pass of the outer
  loop (`Connect`) and the outer loop (`LinkConsumer`). Each is proved
  against a trace function. The ghost class invariant `Synced` ties the
  store to the fold of `Reconcile` over every relayed event.
- **The short code** (`short_code.dfy`). The int64 id is written as eight
  big-endian two's-complement bytes and encoded in unpadded URL-safe
  base64, following section 5 of RFC 4648 for the alphabet and section 3.2
  for the absence of padding. The file also gives the decoder that is the
  encoder's inverse, and the row that `Create` builds from the id.
- **The create-request validation** (`create_link_dto.dfy`). `long_url`
  is required and must be 8 to 2500 characters long. `expires_at` may be
  absent; when present it must be strictly after the current instant.

`wrappers.dfy` holds the `Option` and `Result` datatypes.

One assumption closes a gap in the source. `url-projector/services/link_service.go:50`
assigns the two results of `GetLinkFromAfter` to a single variable, so as
written the decode error is never handled. The model treats a decode
failure the way lines 53-56 treat a store failure: it logs the error and
makes no store call (`LinkService.LinkService.Upsert`, `LinkService.UndecodableUpsertIsNoOp`).

The repository port `url-projector/repositories/link_repository.go:5-6`
declares no methods. The model gives it two: `Upsert` inserts or fully
replaces the document at `link.id`, and `Delete` removes a document or
reports `NotFound`. Its `available` flag stands for a database that does
not answer. In that case every call fails and changes nothing.

## Model

| member | source | states |
|---|---|---|
| LinkModel.FieldLength | url-projector/cdc/envelope.go:43 | each numeric field of the layout takes only digits from the front of the text: the year exactly four or none; the hour one when a digit leads and two exactly when two digits lead; month, day, minute and second exactly two or none |
| LinkModel.ParseLayout | url-projector/cdc/envelope.go:43 | every instant the layout parser accepts is a valid calendar instant: four-digit year, month 1-12, day within the month's length for that year (leap years included), hour, minute and second in range |
| LinkModel.ParseFormatRoundTrip | url-projector/cdc/envelope.go:11 | every valid instant written in the layout `2006-01-02T15:04:05Z` parses back to the same instant |
| Envelope.ParseToEnvelope | url-projector/cdc/envelope.go:25-31 | unmarshalling succeeds exactly on encoded envelopes and yields that envelope; malformed bytes give an error |
| Envelope.ParseTime | url-projector/cdc/envelope.go:33-48 | nil fails naming the field; a non-string fails naming the field and its Go type; a string succeeds exactly when the layout accepts it, with that instant; every error names the field |
| Envelope.ParseOptionalTime | url-projector/cdc/envelope.go:50-60 | nil means no expiry and no error; any other value gives exactly the success or the error of `ParseTime` |
| Envelope.GetLinkFromAfter | url-projector/cdc/envelope.go:62-96 | a failure names one of the five fields; a success copies id (from either number type), short code and URL from the image and holds a valid creation instant and, when present, a valid expiry |
| Envelope.DecodeSucceedsIffWellFormed | url-projector/cdc/envelope.go:62-96 | decoding succeeds if and only if every field holds an acceptable value; on success each `Link` field equals the matching `after` value (id from either number type, expiry absent exactly when `expires_at` is nil) |
| Envelope.DecodeReportsFirstBadField | url-projector/cdc/envelope.go:66-93 | when field k is the first unacceptable one in the order id, short_code, long_url, created_at, expires_at, decoding fails with an error naming field k, whatever the later fields hold |
| Envelope.FloatAndIntIdAgree | url-projector/cdc/envelope.go:66-69 | a float64 id and the equal int64 id decode to the same result |
| Envelope.NonNumericIdRejected | url-projector/cdc/envelope.go:70-72 | an id of any other type, or a missing id, is rejected with the type Go reports for it |
| Envelope.CreatedAtRequiredExpiresAtOptional | url-projector/cdc/envelope.go:83-93 | once id, short_code and long_url are acceptable, a nil `created_at` fails naming that field, while a nil `expires_at` with a valid `created_at` decodes with no expiry |
| LinkService.Plan | url-projector/services/link_service.go:30-45 | an event upserts exactly when its op is `c`, `u` or `r` and its image decodes, and then stores the decoded link; it deletes exactly when its op is `d` and `before.id` is a float64, and then deletes that id; otherwise it does nothing |
| LinkService.LinkRepository.Upsert | url-projector/services/link_service.go:53 | an answering store inserts or replaces the document at `link.id` and reports success; a store that does not answer fails and changes nothing |
| LinkService.LinkRepository.Delete | url-projector/services/link_service.go:64 | an answering store removes the id and reports success, or reports `NotFound` and changes nothing when the id is absent; a store that does not answer fails and changes nothing |
| LinkService.LinkService.ApplyLogic | url-projector/services/link_service.go:27-46 | the new store is `Reconcile` of the old store and the event, and the logged line is `Report` of them; nothing is returned to the caller |
| LinkService.LinkService.Upsert | url-projector/services/link_service.go:49-59 | the decoded image is stored at its id when the store answers; a decode failure or a store failure is logged and leaves the store unchanged |
| LinkService.LinkService.Delete | url-projector/services/link_service.go:62-77 | the id is removed when the store answers; an absent id is logged as already deleted, and any other failure is logged; neither is propagated |
| LinkService.UpsertOpsAgree | url-projector/services/link_service.go:31-33 | ops `c`, `u` and `r` with the same `after` image have the same effect on every store |
| LinkService.UpsertStoresDecodedImage | url-projector/services/link_service.go:49-58 | after an upsert of a decodable image, the store holds exactly the decoded link at its id (a full replace), and every other document is unchanged |
| LinkService.UndecodableUpsertIsNoOp | url-projector/services/link_service.go:50 | an upsert whose image does not decode leaves the store unchanged |
| LinkService.DeleteRemovesExactlyId | url-projector/services/link_service.go:35-38 | a delete with a float64 `before.id` removes exactly that key and leaves every other document as it was |
| LinkService.DeleteWithoutFloatIdIsNoOp | url-projector/services/link_service.go:36-40 | a delete whose `before.id` is missing or not a float64 (an int64 included) changes nothing and is logged as lacking an id |
| LinkService.DeleteOfAbsentIdIsNoOp | url-projector/services/link_service.go:66-70 | deleting an absent id changes nothing and is logged as already deleted, not as an error |
| LinkService.UnknownOpIsNoOp | url-projector/services/link_service.go:43-44 | any other op changes nothing and is logged as no action |
| LinkService.ReconcileIdempotent | url-projector/services/link_service.go:49-64 | applying any event twice leaves the same store as applying it once |
| LinkService.ReplayAppend | url-projector/services/link_service.go:27-46 | replaying two batches of events in turn equals replaying their concatenation |
| LinkService.RedeliveryIsHarmless | url-projector/services/link_service.go:27-46 | an event delivered twice in a row, anywhere in a stream, leaves the same store as a single delivery |
| LinkService.ReplayAt | url-projector/services/link_service.go:27-46 | after a batch, an answering store holds at each key what the last event touching that key wrote there (the link, or nothing after a delete), or what it held before when no event touched it |
| LinkService.ReplayTwice | url-projector/services/link_service.go:27-46 | replaying a batch a second time on its own result changes nothing |
| LinkService.BatchRedeliveryIsHarmless | url-projector/services/link_service.go:27-46 | a batch redelivered right after itself, after any prefix, leaves the same store as a single delivery |
| LinkConsumer.Relay.HandleOutcome | url-projector/consumer/link_consumer.go:56-80 | one poll: a parsed message is reconciled, a malformed one is skipped, and only "all brokers down" or a fatal non-timeout error ends the loop; the trace grows by that poll's steps and the store by that poll's reconcile call |
| LinkConsumer.Relay.ConsumeLoop | url-projector/consumer/link_consumer.go:54-82 | the loop returns exactly when some outcome ends it; the trace grows by the session trace up to and including that outcome, and the store becomes the fold of `Reconcile` over the events the loop relayed |
| LinkConsumer.Relay.Connect | url-projector/consumer/link_consumer.go:19-50 | a creation failure waits; a subscription failure closes the consumer, then waits; a session consumes, then closes and waits once its loop ends; the result says whether the session is still consuming |
| LinkConsumer.Relay.LinkConsumer | url-projector/consumer/link_consumer.go:17-52 | the outer loop retries after every attempt; the trace is the run trace of the observed attempts, and the store is the fold of `Reconcile` over every relayed event, which are the parsed messages of the sessions in receive order |
| LinkConsumer.Classify | url-projector/consumer/link_consumer.go:56-80 | a received message is reconciled exactly when it parses, with its envelope, and skipped exactly when it does not; the loop is left exactly on a broker error that is not a timeout and is "all brokers down" or fatal |
| LinkConsumer.SessionAppliesParsedMessages | url-projector/consumer/link_consumer.go:56-67 | the events a session hands to reconciliation are exactly the parsed messages received up to the first loop-ending outcome, each once, in receive order |
| LinkConsumer.ApplyFollowsItsPoll | url-projector/consumer/link_consumer.go:56-67 | in a session every reconcile call comes right after the poll whose message parsed to its envelope, and every poll that yields a parsed message is followed at once by the reconcile call for that envelope, before the next poll |
| LinkConsumer.LeaveOnlyOnBrokersDownOrFatal | url-projector/consumer/link_consumer.go:69-74 | an outcome ends the inner loop if and only if it is a broker error that is not a timeout and is either "all brokers down" or fatal |
| LinkConsumer.TransientOutcomesOnlyPoll | url-projector/consumer/link_consumer.go:70-80 | a timeout, a non-fatal broker error or a non-broker error is just one more poll and keeps the loop going |
| LinkConsumer.MalformedMessageSkipped | url-projector/consumer/link_consumer.go:61-64 | a message that fails to unmarshal causes no reconcile call, and polling continues |
| LinkConsumer.TimeoutDoesNotEndSession | url-projector/consumer/link_consumer.go:70-71 | a timeout never ends the inner loop: the loop reads past it and ends exactly where the outcomes after it say |
| LinkConsumer.SessionOnlyPollsAndApplies | url-projector/consumer/link_consumer.go:54-82 | inside a session the relay only polls and reconciles; it never creates, closes or sleeps |
| LinkConsumer.RunAppliesParsedMessages | url-projector/consumer/link_consumer.go:17-82 | the events a whole run hands to reconciliation are the parsed messages of its sessions in receive order, each session's up to its loop-ending outcome |
| LinkConsumer.AllSleepsUseRetryDelay | url-projector/consumer/link_consumer.go:15-50 | every wait of the outer loop is the constant 5-second retry delay |
| LinkConsumer.CompletedAttemptIsBalanced | url-projector/consumer/link_consumer.go:29-50 | an attempt that finishes closes every consumer it opened, including after a subscription failure |
| LinkConsumer.AtMostCurrentHandleOpen | url-projector/consumer/link_consumer.go:17-52 | over a whole run, open consumers minus closed ones is 1 if the run ends inside a live session and 0 otherwise |
| ShortCode.Int64BytesRoundTrip | write-api/repositories/links_repository.go:115 | the eight bytes are the big-endian two's-complement form of the id, and reading them back gives the id |
| ShortCode.Encode | write-api/repositories/links_repository.go:121 | the encoding has four characters per three bytes plus one more than the leftover bytes, with no padding, and every character is in the URL-safe alphabet |
| ShortCode.EncodeFoobar | write-api/repositories/links_repository.go:121 | the bytes of "foobar" encode to `Zm9vYmFy`, the known answer of section 10 of RFC 4648 |
| ShortCode.DecodeEncode | write-api/repositories/links_repository.go:121 | decoding the unpadded URL-safe base64 of any bytes gives back those bytes |
| ShortCode.ParseToBase64IsEncoding | write-api/repositories/links_repository.go:121-123 | the encoding never contains `=`, so removing it changes nothing |
| ShortCode.ParseToBase64 | write-api/repositories/links_repository.go:113-124 | every int64 id yields exactly 11 characters, all from A-Z, a-z, 0-9, `-` and `_` |
| ShortCode.ShortCodeRoundTrip | write-api/repositories/links_repository.go:113-124 | decoding a short code and reading the bytes big-endian gives back the id |
| ShortCode.ShortCodeOfOne | write-api/repositories/links_repository.go:113-124 | id 1 has the short code `AAAAAAAAAAE` |
| ShortCode.ShortCodeInjective | write-api/repositories/links_repository.go:113-124 | two ids with the same short code are the same id |
| ShortCode.ShortCodeExceedsColumn | write-api/models/links.go:7 | every short code is 11 characters, one more than the `varchar(10)` column that stores it |
| ShortCode.ShortCodeFitsCorrectedColumn | write-api/models/links.go:7 | every short code fits a column of width 11, and no narrower column holds it |
| ShortCode.NewRow | write-api/repositories/links_repository.go:41-52 | the row `Create` builds keeps the request's URL and expiry, and its short code is 11 characters that decode to the row's id |
| ShortCode.DistinctRowsDistinctCodes | write-api/repositories/links_repository.go:45-52 | rows created with distinct ids carry distinct short codes |
| CreateLinkDto.LongUrlError | write-api/dtos/create_link_dto.go:6 | `long_url` passes exactly when its length is 8 to 2500; an empty one fails the `required` rule |
| CreateLinkDto.ExpiresAtError | write-api/dtos/create_link_dto.go:7 | `expires_at` passes exactly when it is absent or strictly after now; otherwise it fails the `gt` rule |
| CreateLinkDto.Validate | write-api/dtos/create_link_dto.go:5-8 | each field reports at most one failure, so a request has at most two, and every failure names `LONG_URL` or `ExpiresAt` |
| CreateLinkDto.ValidIff | write-api/dtos/create_link_dto.go:5-8 | a request is valid if and only if the URL length is in range and any expiry is in the future |
| CreateLinkDto.EmptyUrlRejected | write-api/tests/link_integration_test.go:91-99 | an empty URL is rejected, with `required` as the first failure |
| CreateLinkDto.UrlLengthOutOfRangeRejected | write-api/dtos/create_link_dto.go:6 | a non-empty URL shorter than 8 or longer than 2500 characters is rejected by `min` or `max` respectively |
| CreateLinkDto.PastOrPresentExpiryRejected | write-api/tests/link_integration_test.go:82-90 | an expiry at or before now is rejected by `gt` |
| CreateLinkDto.InRangeUrlAccepted | write-api/tests/link_integration_test.go:65-81 | a URL of acceptable length with no expiry, or with a future expiry, is accepted |

## Left out

- Byte-level JSON unmarshalling is not modelled. A raw message is either an encoded envelope or malformed bytes, and `ParseToEnvelope` reports which.
- The envelope's `schema` field is not kept: it is declared as an empty struct (`url-projector/cdc/envelope.go:14`), so it holds nothing. The `source`, `ts_ms` and `sequence` fields are carried but drive no behaviour.
- Envelope.GetLinkFromAfter returns a `Result`. On failure Go returns the zero `Link` beside the error; the model returns only the error, because no caller reads that zero value.
- Float64 precision is not modelled. Numbers in the `after` and `before` maps are exact integers tagged with the Go type they arrived as. The conversion `int64(float64)` loses precision for ids above 2^53, and the model does not capture that loss.
- LinkModel.ParseLayout does not model one thing Go's `time.Parse` accepts for this layout: fractional seconds right after the seconds field (`2024-01-01T00:00:00.5Z`). Go decodes such a `created_at` or `expires_at`; the model treats it as undecodable, so the upsert carrying it is logged and skipped.
- Log lines are modelled as `LogEntry` values, not text. The error messages of the decoder are modelled as `DecodeError` values that name the field.
- Store failures are modelled as the repository's `available` flag, fixed for the duration of a run.
- Kafka client details are not modelled: the configuration map, offset auto-commit, the one-second read timeout and the real `time.Sleep`. A sleep appears in the trace with its duration.
- LinkConsumer.Relay.LinkConsumer: the source's outer loop never ends. The model runs it over a finite sequence of connection attempts, and a session over a finite sequence of poll outcomes. A run ends after the attempts run out, or inside a session whose outcomes run out before any ends the loop.
- Concurrency is not modelled: the relay handles one message at a time, as the source does.
- Snowflake id generation is an external library; `NewRow` takes the id as an input.
- The gorm CRUD of the write repository is not modelled: `GetByID`, `GetByShotCode`, `ExistsByShotCode`, the empty `Delete`, and the insert at `write-api/repositories/links_repository.go:54`. That insert compares the returned `*gorm.DB` with nil, so it always takes its error branch.
- The copy of the request into the row (`copier.Copy`) is modelled as copying the two request fields. gorm fills the row's `CreatedAt` when it inserts the row; that is not modelled.
- ShortCode.ParseToBase64 returns a string, not a string and an error. Writing an int64 into an in-memory buffer cannot fail, so the error branch at lines 116-119 is unreachable. For the same reason the error check in `Create` at lines 47-50 never fires.
- CreateLinkDto.ExpiresAtError takes the current instant as a parameter, where the validator reads the wall clock. Instants are integers, and only their order is used.
- Lengths for `min` and `max` are counted in characters (Unicode scalar values), as the validator counts runes. Which errors the validator reports, and in what order, is modelled as one failure per field in declaration order.

## Findings

| source | as written | input that shows it | evidently intended | confidence | as-written member | corrected member |
|---|---|---|---|---|---|---|
| write-api/models/links.go:7 | the `short_code` column is `varchar(10)`, but `parseToBase64` always yields 11 characters, so PostgreSQL rejects every insert | id 1, whose code is `AAAAAAAAAAE` (11 characters) | a column at least as wide as the fixed code length, 11 | not executed | ShortCode.ShortCodeExceedsColumn | ShortCode.ShortCodeFitsCorrectedColumn |
